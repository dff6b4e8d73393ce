/** Concurrent status updates. A call reads the stored status in one transaction, checks the
    transition, and writes the new status in another, so other calls can commit in between. */
module LifecycleProtocol {
  import opened Governance

  type VersionId = int
  type CallId = int

  datatype Call = Call(version: VersionId, target: Lifecycle)

  datatype State = State(status: map<VersionId, Lifecycle>, inFlight: map<CallId, Call>)

  const START: State := State(map[], map[])

  datatype Step =
    | Appear(version: VersionId)
    | ReadAndCheck(call: CallId, version: VersionId, target: Lifecycle)
    | Write(call: CallId)
    | Abandon(call: CallId)

  function Targets(profile: Profile, current: Lifecycle): set<Lifecycle> {
    if current in profile.transitions then profile.transitions[current] else {}
  }

  /** A refused call takes no step. */
  predicate Enabled(profile: Profile, s: State, step: Step) {
    match step
    case Appear(v) => v !in s.status
    case ReadAndCheck(c, v, target) => c !in s.inFlight && v in s.status && target in Targets(profile, s.status[v])
    case Write(c) => c in s.inFlight
    case Abandon(c) => c in s.inFlight
  }

  function Next(s: State, step: Step): State {
    match step
    case Appear(v) => s.(status := s.status[v := Published])
    case ReadAndCheck(c, v, target) => s.(inFlight := s.inFlight[c := Call(v, target)])
    case Write(c) =>
      if c !in s.inFlight then s
      else State(if s.inFlight[c].version in s.status
        then s.status[s.inFlight[c].version := s.inFlight[c].target] else s.status,
                 s.inFlight - {c})
    case Abandon(c) => s.(inFlight := s.inFlight - {c})
  }

  ghost predicate RunFrom(profile: Profile, states: seq<State>, steps: seq<Step>) {
    && |states| == |steps| + 1
    && forall i | 0 <= i < |steps| ::
       Enabled(profile, states[i], steps[i]) && states[i + 1] == Next(states[i], steps[i])
  }

  predicate HasStatus(s: State, v: VersionId, status: Lifecycle) {
    v in s.status && s.status[v] == status
  }

  /** A call that was admitted to move v somewhere else than to archived, and has not written yet. */
  predicate AboutToRevive(s: State, c: CallId, v: VersionId) {
    c in s.inFlight && s.inFlight[c].version == v && s.inFlight[c].target != Archived
  }

  /** No continuation takes v out of archived. */
  ghost predicate ArchivedForGood(profile: Profile, s: State, v: VersionId) {
    forall states: seq<State>, steps: seq<Step> |
      RunFrom(profile, states, steps) && states[0] == s :: HasStatus(states[|steps|], v, Archived)
  }

  lemma StepKeepsArchived(profile: Profile, s: State, step: Step, v: VersionId)
    requires Targets(profile, Archived) == {} && Enabled(profile, s, step)
    requires HasStatus(s, v, Archived) && forall c | c in s.inFlight :: !AboutToRevive(s, c, v)
    ensures HasStatus(Next(s, step), v, Archived)
    ensures forall c | c in Next(s, step).inFlight :: !AboutToRevive(Next(s, step), c, v)
  {
  }

  lemma {:induction false} RunKeepsArchived(profile: Profile, states: seq<State>, steps: seq<Step>, v: VersionId,
      m: nat, n: nat)
    requires Targets(profile, Archived) == {} && RunFrom(profile, states, steps) && m <= n < |states|
    requires HasStatus(states[m], v, Archived) && forall c | c in states[m].inFlight :: !AboutToRevive(states[m], c, v)
    ensures HasStatus(states[n], v, Archived)
    ensures forall c | c in states[n].inFlight :: !AboutToRevive(states[n], c, v)
  {
    if m < n {
      RunKeepsArchived(profile, states, steps, v, m, n - 1);
      StepKeepsArchived(profile, states[n - 1], steps[n - 1], v);
    }
  }

  /** Archived is absorbing from a state exactly when no admitted call is still about to write
      another status; the default profile admits none from archived itself. */
  lemma ArchivedIsAbsorbingIff(profile: Profile, s: State, v: VersionId)
    requires Targets(profile, Archived) == {} && HasStatus(s, v, Archived)
    ensures ArchivedForGood(profile, s, v) <==> forall c | c in s.inFlight :: !AboutToRevive(s, c, v)
  {
    if c :| AboutToRevive(s, c, v) {
      var states, steps := [s, Next(s, Write(c))], [Write(c)];
      assert RunFrom(profile, states, steps) && !HasStatus(states[1], v, Archived);
    } else {
      forall states: seq<State>, steps: seq<Step> | RunFrom(profile, states, steps) && states[0] == s
        ensures HasStatus(states[|steps|], v, Archived)
      {
        RunKeepsArchived(profile, states, steps, v, 0, |steps|);
      }
    }
  }

  /** Calls that do not overlap keep archived absorbing: if nothing is in flight when the status
      is read as archived, it stays archived whatever runs later. */
  lemma ArchivedStaysWithoutOverlap(profile: Profile, states: seq<State>, steps: seq<Step>, v: VersionId, m: nat,
      n: nat)
    requires profile == DEFAULT_PROFILE && RunFrom(profile, states, steps) && m <= n < |states|
    requires HasStatus(states[m], v, Archived) && states[m].inFlight == map[]
    ensures HasStatus(states[n], v, Archived)
  {
    RunKeepsArchived(profile, states, steps, v, m, n);
  }

  lemma {:induction false} EveryCallWasRead(profile: Profile, states: seq<State>, steps: seq<Step>, m: nat, c: CallId)
    returns (r: nat)
    requires RunFrom(profile, states, steps) && states[0] == START && m < |states| && c in states[m].inFlight
    ensures r < m && r < |steps|
      && steps[r] == ReadAndCheck(c, states[m].inFlight[c].version, states[m].inFlight[c].target)
  {
    if c in states[m - 1].inFlight {
      r := EveryCallWasRead(profile, states, steps, m - 1, c);
    } else {
      r := m - 1;
    }
  }

  /** If a version is archived at one moment of a run and not at a later one, then some call read
      the version before the first moment, when it was not archived, and was still to write. */
  lemma RevivalNeedsAnOlderRead(profile: Profile, states: seq<State>, steps: seq<Step>, v: VersionId, m: nat, n: nat)
    returns (r: nat, c: CallId)
    requires Targets(profile, Archived) == {}
    requires RunFrom(profile, states, steps) && states[0] == START && m <= n < |states|
    requires HasStatus(states[m], v, Archived) && !HasStatus(states[n], v, Archived)
    ensures AboutToRevive(states[m], c, v)
    ensures r < m && r < |steps| && steps[r] == ReadAndCheck(c, v, states[m].inFlight[c].target)
    ensures v in states[r].status && states[r].status[v] != Archived
  {
    if forall c | c in states[m].inFlight :: !AboutToRevive(states[m], c, v) {
      RunKeepsArchived(profile, states, steps, v, m, n);
      assert false;
    }
    var reviver :| reviver in states[m].inFlight && AboutToRevive(states[m], reviver, v);
    c := reviver;
    r := EveryCallWasRead(profile, states, steps, m, c);
  }

  /** And it does happen: a deprecation read before an archiving and written after it. */
  lemma ArchivedCanBeLeft(v: VersionId) returns (states: seq<State>, steps: seq<Step>)
    ensures RunFrom(DEFAULT_PROFILE, states, steps) && states[0] == START && |states| == 6
    ensures HasStatus(states[4], v, Archived) && HasStatus(states[5], v, Deprecated)
  {
    steps := [Appear(v), ReadAndCheck(1, v, Deprecated), ReadAndCheck(2, v, Archived), Write(2), Write(1)];
    var s1 := Next(START, steps[0]);
    var s2 := Next(s1, steps[1]);
    var s3 := Next(s2, steps[2]);
    var s4 := Next(s3, steps[3]);
    states := [START, s1, s2, s3, s4, Next(s4, steps[4])];
  }

  /** Under the default profile a call is admitted exactly for the four moves between published and deprecated
      and from these two to archived. */
  lemma AdmittedIff(s: State, c: CallId, v: VersionId, target: Lifecycle)
    ensures Enabled(DEFAULT_PROFILE, s, ReadAndCheck(c, v, target)) <==>
      && c !in s.inFlight && v in s.status
      && (|| (s.status[v] == Published && (target == Deprecated || target == Archived))
          || (s.status[v] == Deprecated && (target == Published || target == Archived)))
  {
  }

  /** An admitted call writes its target over whatever is stored by then, to its own version alone, and is
      done; a version appears published. */
  lemma WhatAWriteDoes(profile: Profile, s: State, c: CallId, v: VersionId)
    requires Enabled(profile, s, Write(c)) && v in s.status
    ensures var t := Next(s, Write(c));
      && v in t.status && t.status.Keys == s.status.Keys && t.inFlight.Keys == s.inFlight.Keys - {c}
      && t.status[v] == if v == s.inFlight[c].version then s.inFlight[c].target else s.status[v]
  {
  }

  ghost predicate Reads(step: Step, c: CallId) {
    step.ReadAndCheck? && step.call == c
  }

  ghost predicate Ends(step: Step, c: CallId) {
    step == Write(c) || step == Abandon(c)
  }

  /** Call c was admitted at step r and has not ended before step n. */
  ghost predicate OpenSince(steps: seq<Step>, c: CallId, r: nat, n: nat)
    requires r < n <= |steps|
  {
    Reads(steps[r], c) && forall m | r < m < n :: !Ends(steps[m], c)
  }

  lemma StepOpensOrEnds(profile: Profile, s: State, step: Step, c: CallId)
    requires Enabled(profile, s, step)
    ensures c in Next(s, step).inFlight <==> Reads(step, c) || (c in s.inFlight && !Ends(step, c))
  {
  }

  /** In every run a call may write, or end without writing, exactly when it was admitted and has not ended
      since; nothing that others do in between prevents it. */
  lemma {:induction false} MayWriteIff(profile: Profile, states: seq<State>, steps: seq<Step>, n: nat, c: CallId)
    requires RunFrom(profile, states, steps) && states[0] == START && n < |states|
    ensures Enabled(profile, states[n], Write(c)) <==> exists r | 0 <= r < n :: OpenSince(steps, c, r, n)
    ensures Enabled(profile, states[n], Abandon(c)) <==> exists r | 0 <= r < n :: OpenSince(steps, c, r, n)
  {
    if n > 0 {
      MayWriteIff(profile, states, steps, n - 1, c);
      StepOpensOrEnds(profile, states[n - 1], steps[n - 1], c);
      hide Next, Ends, Reads;
      var last := n - 1;
      if Reads(steps[last], c) {
        assert OpenSince(steps, c, last, n);
      } else if r :| 0 <= r < last && OpenSince(steps, c, r, last) {
        assert OpenSince(steps, c, r, n) <==> !Ends(steps[last], c);
      }
      if r :| 0 <= r < n && OpenSince(steps, c, r, n) {
        assert r < last ==> OpenSince(steps, c, r, last) && !Ends(steps[last], c);
      }
    }
  }
}
