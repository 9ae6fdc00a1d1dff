/** The storage probe (`checkStorage`, internal/pkg/clustersmoke/run.go) as a protocol: one run
    after another, each possibly killed at any call, against an API server that finishes
    deletions and binds claims in its own time. */
module StorageProbe {
  import opened Wrappers

  datatype Policy = Retain | Delete

  /** An object keeps its name from creation until its deletion has finished. */
  datatype Pod = NoPod | Pod(deleting: bool)

  datatype Claim = NoClaim | Claim(creator: nat, deleting: bool, volume: Option<nat>)

  datatype Outcome = Undecided | Passed | Failed

  /** The API call a run makes next. */
  datatype At =
    | Idle
    | ReadClass
    | DeletePod | ReadClaim | ReadVolume(volume: nat) | PatchVolume(volume: nat) | DeleteClaim
    | AwaitPod | AwaitClaim
    | CreateClaim | CreatePod
    | AwaitBound

  /** `last` is set while the deferred cleanup runs, `careful` while no call of a cleanup has
      failed that decides the volume's policy. `excused` records the volumes a claim's deletion
      left on Retain with a reason: such a call had failed, or the claim bound too late to be seen. */
  datatype State = State(
    pod: Pod, claim: Claim, volumes: map<nat, Policy>, excused: set<nat>,
    run: nat, late: bool, at: At, last: bool, outcome: Outcome, careful: bool)

  /** The server's answer to a call; one that is lost has still happened. */
  datatype Answer = Answered | Refused | Lost

  /** What happens next. A poll may be the last before the deadline or a cancellation. */
  datatype Choice =
    | Start(late: bool)
    | Kill
    | Call(answer: Answer, giveUp: bool)
    | PodGone
    | ClaimGone
    | Bind(volume: nat, policy: Policy)
    | VolumeGone(volume: nat)

  datatype Event =
    | Silent
    | AlreadyExists
    | Judged(creator: nat)
    | Finished(outcome: Outcome)

  const START := State(NoPod, NoClaim, map[], {}, 0, false, Idle, false, Undecided, true)

  // The run.

  /** `cleanupStorageProbe` starts. */
  function Cleanup(s: State, last: bool, outcome: Outcome): State {
    s.(at := if s.late then DeletePod else ReadClaim, last := last, outcome := outcome, careful := true)
  }

  function Fail(s: State): (State, Event) {
    (Cleanup(s, true, Failed), Silent)
  }

  /** The cleanup is over: the first is followed by the wait, the deferred one by the verdict. */
  function Cleaned(s: State): (State, Event) {
    if s.last then (s.(at := Idle), Finished(s.outcome))
    else (s.(at := if s.late then AwaitPod else AwaitClaim), Silent)
  }

  /** Deleting asks; the name stays taken. */
  function PodDeleted(s: State): State {
    if s.pod.NoPod? then s else s.(pod := Pod(true))
  }

  function ClaimDeleted(s: State): State {
    if s.claim.NoClaim? then s
    else s.(claim := s.claim.(deleting := true),
            excused := s.excused + if !s.careful && s.claim.volume.Some? then {s.claim.volume.value} else {})
  }

  function Switched(s: State, volume: nat): State {
    if volume in s.volumes then s.(volumes := s.volumes[volume := Delete]) else s
  }

  /** `releaseProbeVolume`, call by call, between the two deletions. */
  function CleanupCall(s: State, answer: Answer): (State, Event)
    requires s.at.DeletePod? || s.at.ReadClaim? || s.at.ReadVolume? || s.at.PatchVolume? || s.at.DeleteClaim?
  {
    match s.at
    case DeletePod => ((if answer.Refused? then s else PodDeleted(s)).(at := ReadClaim), Silent)
    case ReadClaim =>
      if !answer.Answered? then (s.(at := DeleteClaim, careful := false), Silent)
      else if s.claim.NoClaim? || s.claim.volume.None? then (s.(at := DeleteClaim), Silent)
      else (s.(at := ReadVolume(s.claim.volume.value)), Silent)
    case ReadVolume(v) =>
      if !answer.Answered? then (s.(at := DeleteClaim, careful := false), Silent)
      else if v !in s.volumes || s.volumes[v].Delete? then (s.(at := DeleteClaim), Silent)
      else (s.(at := PatchVolume(v)), Silent)
    case PatchVolume(v) =>
      var done := if answer.Refused? then s else Switched(s, v);
      (done.(at := DeleteClaim, careful := s.careful && answer.Answered?), Silent)
    case DeleteClaim => Cleaned(if answer.Refused? then s else ClaimDeleted(s))
  }

  /** One look of `waitGone`. */
  function AwaitGone(s: State, present: bool, then_: At, answer: Answer, giveUp: bool): (State, Event) {
    if !answer.Answered? then Fail(s)
    else if !present then (s.(at := then_), Silent)
    else if giveUp then Fail(s)
    else (s, Silent)
  }

  /** A creation the server handles: the name is taken, or the object exists from now on. */
  function CreatedClaim(s: State): (State, Event) {
    if s.claim.Claim? then (s, AlreadyExists) else (s.(claim := Claim(s.run, false, None)), Silent)
  }

  function CreatedPod(s: State): (State, Event) {
    if s.pod.Pod? then (s, AlreadyExists) else (s.(pod := Pod(false)), Silent)
  }

  /** The run goes on only when the call was answered and nothing collided. */
  function AfterCreate(s: State, made: (State, Event), next: At, answer: Answer): (State, Event) {
    if answer.Refused? then Fail(s)
    else if answer.Lost? || made.1.AlreadyExists? then (Cleanup(made.0, true, Failed), made.1)
    else (made.0.(at := next), Silent)
  }

  /** The run's next call. */
  function RunCall(s: State, answer: Answer, giveUp: bool): (State, Event) {
    match s.at
    case Idle => (s, Silent)
    case ReadClass =>
      if answer.Answered? then (Cleanup(s, false, Undecided), Silent)
      else (s.(at := Idle, outcome := Failed), Finished(Failed))
    case AwaitPod => AwaitGone(s, s.pod.Pod?, AwaitClaim, answer, giveUp)
    case AwaitClaim => AwaitGone(s, s.claim.Claim?, CreateClaim, answer, giveUp)
    case CreateClaim => AfterCreate(s, CreatedClaim(s), if s.late then CreatePod else AwaitBound, answer)
    case CreatePod => AfterCreate(s, CreatedPod(s), AwaitBound, answer)
    case AwaitBound =>
      if !answer.Answered? || s.claim.NoClaim? then Fail(s)
      else if s.claim.volume.Some? then (Cleanup(s, true, Passed), Judged(s.claim.creator))
      else if giveUp then Fail(s)
      else (s, Silent)
    case _ => CleanupCall(s, answer)
  }

  /** One step of the run or of the cluster. A choice that cannot happen changes nothing. */
  function Step(s: State, c: Choice): (State, Event) {
    match c
    case Start(late) =>
      if s.at.Idle? then (s.(run := s.run + 1, late := late, at := ReadClass, last := false, outcome := Undecided), Silent)
      else (s, Silent)
    case Kill => (s.(at := Idle), Silent)
    case Call(answer, giveUp) => RunCall(s, answer, giveUp)
    case PodGone => if s.pod.Pod? && s.pod.deleting then (s.(pod := NoPod), Silent) else (s, Silent)
    case ClaimGone =>
      // The protection finalizer holds the claim while a pod uses it.
      if s.claim.Claim? && s.claim.deleting && s.pod.NoPod? then (s.(claim := NoClaim), Silent) else (s, Silent)
    case Bind(v, policy) =>
      if s.claim.Claim? && s.claim.volume.None? && v !in s.volumes && v !in s.excused then
        (s.(claim := s.claim.(volume := Some(v)), volumes := s.volumes[v := policy],
            excused := s.excused + if s.claim.deleting || s.at.DeleteClaim? then {v} else {}), Silent)
      else (s, Silent)
    case VolumeGone(v) =>
      if v in s.volumes && s.volumes[v].Delete? && !BoundTo(s, v) then (s.(volumes := s.volumes - {v}), Silent)
      else (s, Silent)
  }

  predicate BoundTo(s: State, v: nat) {
    s.claim.Claim? && s.claim.volume == Some(v)
  }

  // Whole histories.

  function After(choices: seq<Choice>): State {
    if choices == [] then START else Step(After(choices[..|choices| - 1]), choices[|choices| - 1]).0
  }

  function EventAt(choices: seq<Choice>, i: nat): Event
    requires i < |choices|
  {
    Step(After(choices[..i]), choices[i]).1
  }

  // What always holds.

  /** The claim of this run, as it was made. */
  predicate Own(s: State) {
    && s.claim.Claim? && s.claim.creator == s.run && !s.claim.deleting
    && (s.claim.volume.Some? ==> s.claim.volume.value !in s.excused)
  }

  /** The names a run is about to create are free, and the claim it reads is its own. */
  predicate NamesFree(s: State) {
    match s.at
    case AwaitClaim => s.late ==> s.pod.NoPod?
    case CreateClaim => s.claim.NoClaim? && (s.late ==> s.pod.NoPod?)
    case CreatePod => s.late && s.pod.NoPod? && Own(s)
    case AwaitBound => Own(s)
    case _ => true
  }

  /** A deleted claim's volume goes with it unless there was a reason. */
  predicate Settled(s: State) {
    s.claim.Claim? && s.claim.volume.Some? ==>
      s.claim.volume.value in s.volumes
      && (s.volumes[s.claim.volume.value].Delete? || s.claim.volume.value in s.excused)
  }

  /** Of the cluster alone: a retained volume has its claim, or a reason. */
  predicate Accounted(s: State) {
    && (s.claim.Claim? && s.claim.volume.Some? ==> s.claim.volume.value in s.volumes)
    && (s.claim.Claim? && s.claim.deleting ==> Settled(s))
    && (forall v :: v in s.volumes && s.volumes[v].Retain? ==> BoundTo(s, v) || v in s.excused)
  }

  /** Of a cleanup on its way: it works on the claim's volume, and ends with it settled. */
  predicate OnTrack(s: State) {
    && (s.at.ReadVolume? || s.at.PatchVolume? ==> s.claim.Claim? ==> BoundTo(s, s.at.volume))
    && (s.at.DeleteClaim? && s.careful ==> Settled(s))
  }

  predicate Cleaning(s: State) {
    s.at.DeletePod? || s.at.ReadClaim? || s.at.ReadVolume? || s.at.PatchVolume? || s.at.DeleteClaim?
  }

  /** A run that passed cleans up a claim of its own that is bound. */
  predicate PassedOwn(s: State) {
    Cleaning(s) && s.outcome.Passed? ==> s.last && Own(s) && s.claim.volume.Some?
  }

  predicate Inv(s: State) {
    NamesFree(s) && Accounted(s) && OnTrack(s) && PassedOwn(s)
  }

  /** The claim's volume will go with it. */
  predicate HandedBack(s: State) {
    && s.claim.Claim? && s.claim.volume.Some? && s.claim.volume.value in s.volumes
    && s.volumes[s.claim.volume.value].Delete?
  }

  /** What one step may show. */
  predicate Allowed(s: State, e: Event, t: State) {
    && !e.AlreadyExists?
    && (e.Judged? ==> e.creator == s.run && t.outcome.Passed?)
    && (e == Finished(Passed) && s.careful ==> HandedBack(t))
  }

  predicate Kept(s: State, c: Choice) {
    Inv(Step(s, c).0) && Allowed(s, Step(s, c).1, Step(s, c).0)
  }

  lemma CleanupStarts(s: State, last: bool, outcome: Outcome)
    requires Accounted(s) && (outcome.Passed? ==> last && Own(s) && s.claim.volume.Some?)
    ensures Inv(Cleanup(s, last, outcome))
  {
  }

  lemma ReadSafe(s: State, answer: Answer)
    requires Inv(s) && (s.at.ReadClaim? || s.at.ReadVolume?)
    ensures var (t, e) := CleanupCall(s, answer); Inv(t) && e.Silent?
  {
  }

  lemma PatchSafe(s: State, answer: Answer)
    requires Inv(s) && s.at.PatchVolume?
    ensures var (t, e) := CleanupCall(s, answer); Inv(t) && e.Silent?
  {
    var done := if answer.Refused? then s else Switched(s, s.at.volume);
    assert Accounted(done) && Own(s) == Own(done);
    assert answer.Answered? ==> Settled(done);
  }

  lemma PodDeleteSafe(s: State, answer: Answer)
    requires Inv(s) && s.at.DeletePod?
    ensures var (t, e) := CleanupCall(s, answer); Inv(t) && e.Silent?
  {
  }

  lemma ClaimDeleteSafe(s: State, answer: Answer)
    requires Inv(s) && s.at.DeleteClaim?
    ensures var (t, e) := CleanupCall(s, answer); Inv(t) && Allowed(s, e, t)
  {
    var done := if answer.Refused? then s else ClaimDeleted(s);
    assert Accounted(done);
  }

  lemma AwaitSafe(s: State, answer: Answer, giveUp: bool)
    requires Inv(s) && (s.at.AwaitPod? || s.at.AwaitClaim? || s.at.ReadClass?)
    ensures var (t, e) := RunCall(s, answer, giveUp); Inv(t) && Allowed(s, e, t)
  {
    hide Cleanup;
    CleanupStarts(s, true, Failed);
    CleanupStarts(s, false, Undecided);
  }

  lemma CreateSafe(s: State, answer: Answer, giveUp: bool)
    requires Inv(s) && (s.at.CreateClaim? || s.at.CreatePod?)
    ensures var (t, e) := RunCall(s, answer, giveUp); Inv(t) && Allowed(s, e, t)
  {
    hide Cleanup;
    CleanupStarts(s, true, Failed);
    CleanupStarts(if s.at.CreateClaim? then CreatedClaim(s).0 else CreatedPod(s).0, true, Failed);
  }

  lemma BoundSafe(s: State, answer: Answer, giveUp: bool)
    requires Inv(s) && s.at.AwaitBound?
    ensures var (t, e) := RunCall(s, answer, giveUp); Inv(t) && Allowed(s, e, t)
  {
    CleanupStarts(s, true, Failed);
    if s.claim.volume.Some? { CleanupStarts(s, true, Passed); }
  }

  lemma CallSafe(s: State, answer: Answer, giveUp: bool)
    requires Inv(s)
    ensures Kept(s, Call(answer, giveUp))
  {
    hide Inv, Cleanup, CleanupCall, RunCall;
    CallCases(s, answer, giveUp);
    match s.at {
      case Idle =>
      case ReadClass => AwaitSafe(s, answer, giveUp);
      case AwaitPod => AwaitSafe(s, answer, giveUp);
      case AwaitClaim => AwaitSafe(s, answer, giveUp);
      case CreateClaim => CreateSafe(s, answer, giveUp);
      case CreatePod => CreateSafe(s, answer, giveUp);
      case AwaitBound => BoundSafe(s, answer, giveUp);
      case DeletePod => PodDeleteSafe(s, answer);
      case DeleteClaim => ClaimDeleteSafe(s, answer);
      case PatchVolume(v) => PatchSafe(s, answer);
      case _ => ReadSafe(s, answer);
    }
  }

  lemma CallCases(s: State, answer: Answer, giveUp: bool)
    ensures s.at.Idle? ==> RunCall(s, answer, giveUp) == (s, Silent)
    ensures Cleaning(s) ==> RunCall(s, answer, giveUp) == CleanupCall(s, answer)
  {
  }

  lemma GoneSafe(s: State, c: Choice)
    requires Inv(s) && (c.PodGone? || c.ClaimGone? || c.VolumeGone?)
    ensures Kept(s, c)
  {
    var t := Step(s, c).0;
    assert Accounted(t);
    assert Own(s) ==> Own(t);
  }

  lemma BindSafe(s: State, v: nat, policy: Policy)
    requires Inv(s)
    ensures Kept(s, Bind(v, policy))
  {
    var t := Step(s, Bind(v, policy)).0;
    assert Accounted(t);
  }

  lemma StartSafe(s: State, c: Choice)
    requires Inv(s) && (c.Start? || c.Kill?)
    ensures Kept(s, c)
  {
  }

  /** The one-step argument: whatever happens next, the invariant is kept and nothing forbidden shows. */
  lemma StepSafe(s: State, c: Choice)
    requires Inv(s)
    ensures Kept(s, c)
  {
    hide Inv, Kept;
    match c {
      case Call(answer, giveUp) => CallSafe(s, answer, giveUp);
      case Start(late) => StartSafe(s, c);
      case Kill => StartSafe(s, c);
      case Bind(v, policy) => BindSafe(s, v, policy);
      case _ => GoneSafe(s, c);
    }
  }

  lemma {:induction false} AlwaysInv(choices: seq<Choice>)
    ensures Inv(After(choices))
    decreases |choices|
  {
    if choices != [] {
      AlwaysInv(choices[..|choices| - 1]);
      StepSafe(After(choices[..|choices| - 1]), choices[|choices| - 1]);
    }
  }

  /** In every history no creation ever collides, a verdict of Passed is on a claim the run made
      itself, and a run that passed and cleaned up without a failed call has handed its volume back. */
  lemma ProbeSafe(choices: seq<Choice>, i: nat)
    requires i < |choices|
    ensures EventAt(choices, i) != AlreadyExists
    ensures EventAt(choices, i).Judged? ==> EventAt(choices, i).creator == After(choices[..i]).run
    ensures EventAt(choices, i) == Finished(Passed) && After(choices[..i]).careful ==> HandedBack(After(choices[..i + 1]))
  {
    hide Inv, HandedBack, Step;
    AlwaysInv(choices[..i]);
    StepSafe(After(choices[..i]), choices[i]);
    assert choices[..i + 1][..i] == choices[..i];
  }

  /** A run that is about to report Passed has judged its claim in this history. */
  lemma {:induction false} PassedWasJudged(choices: seq<Choice>)
    requires After(choices).outcome.Passed? && !After(choices).at.Idle?
    ensures exists j: nat :: j < |choices| && EventAt(choices, j) == Judged(After(choices).run)
    decreases |choices|
  {
    hide Step;
    var n := |choices| - 1;
    var before := choices[..n];
    OutcomeStep(After(before), choices[n]);
    AlwaysInv(before);
    StepSafe(After(before), choices[n]);
    if EventAt(choices, n).Judged? {
      assert EventAt(choices, n) == Judged(After(choices).run);
    } else {
      PassedWasJudged(before);
      var j: nat :| j < |before| && EventAt(before, j) == Judged(After(before).run);
      assert before[..j] == choices[..j];
      assert EventAt(choices, j) == EventAt(before, j);
    }
  }

  lemma CleanupKeepsOutcome(s: State, answer: Answer)
    requires Cleaning(s)
    ensures var t := CleanupCall(s, answer).0; t.run == s.run && t.outcome == s.outcome
  {
  }

  lemma CallOutcome(s: State, answer: Answer, giveUp: bool)
    requires !Cleaning(s)
    ensures var (t, e) := RunCall(s, answer, giveUp);
      t.outcome.Passed? && !t.at.Idle? ==> t.run == s.run && (e.Judged? || (s.outcome.Passed? && !s.at.Idle?))
  {
    hide CleanupCall;
    match s.at {
      case CreateClaim => assert CreatedClaim(s).0.outcome == s.outcome;
      case CreatePod => assert CreatedPod(s).0.outcome == s.outcome;
      case _ =>
    }
  }

  lemma OutcomeStep(s: State, c: Choice)
    ensures var (t, e) := Step(s, c);
      t.outcome.Passed? && !t.at.Idle? ==> t.run == s.run && (e.Judged? || (s.outcome.Passed? && !s.at.Idle?))
  {
    if c.Call? {
      hide CleanupCall;
      if Cleaning(s) { CleanupKeepsOutcome(s, c.answer); } else { hide RunCall; CallOutcome(s, c.answer, c.giveUp); }
    }
  }

  // What is left behind.

  /** Nothing went wrong for the volumes: the cleanups' calls were answered, and no claim bound
      once its deletion was being asked for. */
  predicate Calm(choices: seq<Choice>) {
    forall i :: 0 <= i < |choices| ==> CalmStep(After(choices[..i]), choices[i])
  }

  predicate CalmStep(s: State, c: Choice) {
    && (c.Call? && Cleaning(s) ==> c.answer.Answered?)
    && (c.Bind? ==> !s.at.DeleteClaim? && !(s.claim.Claim? && s.claim.deleting))
  }

  lemma CalmKept(s: State, c: Choice)
    requires CalmStep(s, c) && s.excused == {} && (Cleaning(s) ==> s.careful)
    ensures var t := Step(s, c).0; t.excused == {} && (Cleaning(t) ==> t.careful)
  {
    if c.Call? {
      if Cleaning(s) { CalmCleanup(s, c.answer); } else { CalmCall(s, c.answer, c.giveUp); }
    }
  }

  lemma CalmCleanup(s: State, answer: Answer)
    requires answer.Answered? && s.excused == {} && Cleaning(s) && s.careful
    ensures var t := CleanupCall(s, answer).0; t.excused == {} && (Cleaning(t) ==> t.careful)
  {
  }

  lemma CalmCall(s: State, answer: Answer, giveUp: bool)
    requires s.excused == {} && !Cleaning(s)
    ensures var t := RunCall(s, answer, giveUp).0; t.excused == {} && (Cleaning(t) ==> t.careful)
  {
    hide CleanupCall;
    match s.at {
      case CreateClaim => assert CreatedClaim(s).0.excused == {};
      case CreatePod => assert CreatedPod(s).0.excused == {};
      case _ =>
    }
  }

  lemma {:induction false} CalmExcusesNothing(choices: seq<Choice>)
    requires Calm(choices)
    ensures After(choices).excused == {} && (Cleaning(After(choices)) ==> After(choices).careful)
    decreases |choices|
  {
    hide Step, CalmStep;
    if choices != [] {
      var before := choices[..|choices| - 1];
      assert forall i :: 0 <= i < |before| ==> before[..i] == choices[..i];
      CalmExcusesNothing(before);
      CalmKept(After(before), choices[|choices| - 1]);
    }
  }

  /** However the runs are killed, in a calm history a retained volume always has its claim. */
  lemma NothingLeftBehind(choices: seq<Choice>, v: nat)
    requires Calm(choices) && v in After(choices).volumes && After(choices).volumes[v].Retain?
    ensures BoundTo(After(choices), v)
  {
    CalmExcusesNothing(choices);
    AlwaysInv(choices);
  }

  /** In any history a retained volume without its claim has been excused. */
  lemma LeftBehindForAReason(choices: seq<Choice>, v: nat)
    requires v in After(choices).volumes && After(choices).volumes[v].Retain? && !BoundTo(After(choices), v)
    ensures v in After(choices).excused
  {
    AlwaysInv(choices);
  }

  // A pod stranded by a late-binding run blocks every run on an immediate class.

  /** A live pod holds a claim, and the run in progress, if any, does not delete pods. */
  predicate Stranded(s: State) {
    && s.pod == Pod(false) && s.claim.Claim?
    && (s.at.Idle? || s.at.ReadClass? || (!s.late && !s.outcome.Passed?
        && (s.at.ReadClaim? || s.at.ReadVolume? || s.at.PatchVolume? || s.at.DeleteClaim? || s.at.AwaitClaim?)))
    && (s.at.ReadClass? ==> !s.late && !s.outcome.Passed?)
  }

  lemma StrandedStays(s: State, c: Choice)
    requires Stranded(s) && c != Start(true)
    ensures Stranded(Step(s, c).0) && !Step(s, c).1.Judged? && Step(s, c).1 != Finished(Passed)
  {
  }

  /** Until a run on a late-binding class starts, no run passes. */
  lemma {:induction false} StrandedBlocks(before: seq<Choice>, more: seq<Choice>)
    requires Stranded(After(before)) && Start(true) !in more
    ensures Stranded(After(before + more))
    ensures forall i: nat :: |before| <= i < |before + more| ==>
      !EventAt(before + more, i).Judged? && EventAt(before + more, i) != Finished(Passed)
    decreases |more|
  {
    hide Step, Stranded;
    var all := before + more;
    if more == [] {
      assert all == before;
    } else {
      var n := |more| - 1;
      assert all[..|all| - 1] == before + more[..n] && all[|all| - 1] == more[n];
      StrandedBlocks(before, more[..n]);
      StrandedStays(After(before + more[..n]), more[n]);
      forall i: nat | |before| <= i < |all|
        ensures !EventAt(all, i).Judged? && EventAt(all, i) != Finished(Passed)
      {
        if i < |all| - 1 {
          assert all[..i] == (before + more[..n])[..i];
          assert EventAt(all, i) == EventAt(before + more[..n], i);
        }
      }
    }
  }

  // A late-binding run can always get through.

  const ANSWER := Call(Answered, false)

  /** A history goes on with one more choice. */
  lemma Go(before: seq<Choice>, c: Choice) returns (h: seq<Choice>)
    ensures h == before + [c] && After(h) == Step(After(before), c).0
    ensures EventAt(h, |before|) == Step(After(before), c).1
  {
    h := before + [c];
    assert h[..|before|] == before;
  }

  /** A late-binding run's first pass has got so far. */
  predicate LateAt(s: State, run: nat, at: At) {
    s.run == run && s.late && !s.last && s.at == at
  }

  /** A killed run's successor asks for the pod to go. */
  lemma LateRunStarts(before: seq<Choice>) returns (h: seq<Choice>)
    ensures before + [Kill, Start(true)] <= h
    ensures LateAt(After(h), After(before).run + 1, ReadClaim) && (After(h).pod.Pod? ==> After(h).pod.deleting)
  {
    hide After, EventAt;
    h := Go(before, Kill);
    h := Go(h, Start(true));
    h := Go(h, ANSWER);
    h := Go(h, ANSWER);
    assert before + [Kill] + [Start(true)] == before + [Kill, Start(true)];
  }

  /** It settles the volume, whatever it finds. */
  lemma LateRunReleases(before: seq<Choice>, run: nat) returns (h: seq<Choice>)
    requires LateAt(After(before), run, ReadClaim)
    ensures before <= h && LateAt(After(h), run, DeleteClaim)
    ensures After(h).pod == After(before).pod && After(h).claim == After(before).claim
  {
    hide After, EventAt;
    h := Go(before, ANSWER);
    if After(h).at.ReadVolume? {
      h := Go(h, ANSWER);
    }
    if After(h).at.PatchVolume? {
      h := Go(h, ANSWER);
    }
  }

  /** It deletes the claim, and sees the pod gone. */
  lemma LateRunDeletes(before: seq<Choice>, run: nat) returns (h: seq<Choice>)
    requires LateAt(After(before), run, DeleteClaim) && (After(before).pod.Pod? ==> After(before).pod.deleting)
    ensures before <= h && LateAt(After(h), run, AwaitClaim) && After(h).pod.NoPod?
    ensures After(h).claim.Claim? ==> After(h).claim.deleting
  {
    hide After, EventAt;
    h := Go(before, ANSWER);
    h := Go(h, PodGone);
    h := Go(h, ANSWER);
  }

  /** Then the claim. */
  lemma LateRunClears(before: seq<Choice>, run: nat) returns (h: seq<Choice>)
    requires LateAt(After(before), run, AwaitClaim) && After(before).pod.NoPod?
    requires After(before).claim.Claim? ==> After(before).claim.deleting
    ensures before <= h && LateAt(After(h), run, CreateClaim) && After(h).pod.NoPod? && After(h).claim.NoClaim?
  {
    hide After, EventAt;
    h := Go(before, ClaimGone);
    h := Go(h, ANSWER);
  }

  /** Whatever a history left behind, a late-binding run can clear it and make its own. */
  lemma LateRunMakes(before: seq<Choice>) returns (h: seq<Choice>)
    ensures before + [Kill, Start(true)] <= h && LateAt(After(h), After(before).run + 1, AwaitBound)
    ensures After(h).pod == Pod(false) && After(h).claim == Claim(After(before).run + 1, false, None)
  {
    var run := After(before).run + 1;
    hide After, EventAt;
    h := LateRunStarts(before);
    h := LateRunReleases(h, run);
    h := LateRunDeletes(h, run);
    h := LateRunClears(h, run);
    h := Go(h, ANSWER);
    h := Go(h, ANSWER);
  }

  /** Killed there, it strands its pod. */
  lemma StrandingHappens(before: seq<Choice>) returns (h: seq<Choice>)
    ensures before < h && Stranded(After(h))
  {
    h := LateRunMakes(before);
    hide After, EventAt;
    h := Go(h, Kill);
  }

  lemma {:induction false} Above(s: set<nat>) returns (v: nat)
    ensures forall x :: x in s ==> x < v
    decreases |s|
  {
    if s == {} {
      v := 0;
    } else {
      var x :| x in s;
      var rest := Above(s - {x});
      v := if x < rest then rest else x + 1;
      assert forall y :: y in s ==> y == x || y in s - {x};
    }
  }

  /** From whatever a history left behind, a stranded pod or anything else, a late-binding run
      can get through: it waits for that to go, makes its own claim and passes on that. */
  lemma LateRunPasses(before: seq<Choice>) returns (h: seq<Choice>)
    ensures before + [Kill, Start(true)] < h
    ensures EventAt(h, |h| - 1) == Judged(After(before).run + 1) && After(h).outcome.Passed?
  {
    h := LateRunMakes(before);
    h := BoundPasses(h);
  }

  // An immediate run can, unless a pod is stranded.

  predicate ImmediateAt(s: State, run: nat, at: At) {
    s.run == run && !s.late && !s.last && s.at == at
  }

  /** No live pod holds the claim. */
  predicate Clearable(s: State) {
    s.pod == Pod(false) ==> s.claim.NoClaim?
  }

  lemma ImmediateRunStarts(before: seq<Choice>) returns (h: seq<Choice>)
    requires Clearable(After(before))
    ensures before + [Kill, Start(false)] <= h
    ensures ImmediateAt(After(h), After(before).run + 1, ReadClaim) && Clearable(After(h))
  {
    hide After, EventAt;
    h := Go(before, Kill);
    h := Go(h, Start(false));
    h := Go(h, ANSWER);
    assert before + [Kill] + [Start(false)] == before + [Kill, Start(false)];
  }

  lemma ImmediateRunReleases(before: seq<Choice>, run: nat) returns (h: seq<Choice>)
    requires ImmediateAt(After(before), run, ReadClaim) && Clearable(After(before))
    ensures before <= h && ImmediateAt(After(h), run, DeleteClaim) && Clearable(After(h))
  {
    hide After, EventAt;
    h := Go(before, ANSWER);
    if After(h).at.ReadVolume? {
      h := Go(h, ANSWER);
    }
    if After(h).at.PatchVolume? {
      h := Go(h, ANSWER);
    }
  }

  lemma ImmediateRunDeletes(before: seq<Choice>, run: nat) returns (h: seq<Choice>)
    requires ImmediateAt(After(before), run, DeleteClaim) && Clearable(After(before))
    ensures before <= h && ImmediateAt(After(h), run, CreateClaim) && After(h).claim.NoClaim?
  {
    hide After, EventAt;
    h := Go(before, ANSWER);
    h := Go(h, PodGone);
    h := Go(h, ClaimGone);
    h := Go(h, ANSWER);
  }

  lemma ImmediateRunMakes(before: seq<Choice>) returns (h: seq<Choice>)
    requires Clearable(After(before))
    ensures before + [Kill, Start(false)] <= h && ImmediateAt(After(h), After(before).run + 1, AwaitBound)
    ensures After(h).claim == Claim(After(before).run + 1, false, None)
  {
    var run := After(before).run + 1;
    hide After, EventAt;
    h := ImmediateRunStarts(before);
    h := ImmediateRunReleases(h, run);
    h := ImmediateRunDeletes(h, run);
    h := Go(h, ANSWER);
  }

  /** Where no live pod holds the claim, a run on an immediate class can get through as well. */
  lemma ImmediateRunPasses(before: seq<Choice>) returns (h: seq<Choice>)
    requires After(before).pod == Pod(false) ==> After(before).claim == NoClaim
    ensures before + [Kill, Start(false)] < h
    ensures EventAt(h, |h| - 1) == Judged(After(before).run + 1) && After(h).outcome.Passed?
  {
    h := ImmediateRunMakes(before);
    h := BoundPasses(h);
  }

  /** The claim a run waits for binds, and the run passes on it. */
  lemma BoundPasses(before: seq<Choice>) returns (h: seq<Choice>)
    requires After(before).at.AwaitBound? && After(before).claim.Claim? && After(before).claim.volume.None?
    ensures before < h
    ensures EventAt(h, |h| - 1) == Judged(After(before).claim.creator) && After(h).outcome.Passed?
  {
    var v := Above(After(before).volumes.Keys + After(before).excused);
    hide After, EventAt;
    h := Go(before, Bind(v, Retain));
    h := Go(h, ANSWER);
  }
}
