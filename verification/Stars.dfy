/** User stars: one batch of star and unstar events, and the row locks that concurrent batches take. */
module Stars {
  import opened Collections
  import opened GroupRanking

  type SkillId = int

  datatype StarEvent = StarEvent(slug: string, star: bool)
  datatype StarCount = StarCount(slug: string, count: nat)
  datatype Outcome = Counts(counts: seq<StarCount>) | UnknownSkills(slugs: seq<string>)

  /** `skill_user_stars`, unique per (user, skill). */
  type StarTable = set<(string, SkillId)>

  function Starred(stars: StarTable, user: string, skill: SkillId, star: bool): StarTable {
    if star then stars + {(user, skill)} else stars - {(user, skill)}
  }

  function AfterEvents(stars: StarTable, skills: map<string, SkillId>, user: string, events: seq<StarEvent>): StarTable
    requires forall e | e in events :: e.slug in skills
  {
    if events == [] then stars
    else
      var last := events[|events| - 1];
      Starred(AfterEvents(stars, skills, user, events[..|events| - 1]), user, skills[last.slug], last.star)
  }

  function RowsOf(stars: StarTable, skill: SkillId): StarTable {
    set s | s in stars && s.1 == skill
  }

  /** The computed column `star_count`. */
  function CountOf(stars: StarTable, skill: SkillId): nat {
    |RowsOf(stars, skill)|
  }

  function CountsAfter(stars: StarTable, skills: map<string, SkillId>, user: string,
      events: seq<StarEvent>): (r: seq<StarCount>)
    requires forall e | e in events :: e.slug in skills
    ensures |r| == |events|
  {
    if events == [] then []
    else
      var n := |events| - 1;
      CountsAfter(stars, skills, user, events[..n])
        + [StarCount(events[n].slug, CountOf(AfterEvents(stars, skills, user, events), skills[events[n].slug]))]
  }

  function MissingSlugs(events: seq<StarEvent>, skills: map<string, SkillId>): seq<string> {
    if events == [] then []
    else
      var n := |events| - 1;
      MissingSlugs(events[..n], skills) + if events[n].slug in skills then [] else [events[n].slug]
  }

  lemma {:induction false} NothingMissing(events: seq<StarEvent>, skills: map<string, SkillId>)
    ensures MissingSlugs(events, skills) == [] <==> forall e | e in events :: e.slug in skills
  {
    if events != [] {
      var n := |events| - 1;
      NothingMissing(events[..n], skills);
      assert events == events[..n] + [events[n]];
    }
  }

  function Slug(s: string): string { s }

  /** Each missing slug once, in order of first mention. */
  method UniqueSlugs(missing: seq<string>) returns (r: seq<string>)
    ensures r == FirstPerKey(Slug, missing)
  {
    var seen: set<string> := {};
    r := [];
    var i := 0;
    while i < |missing|
      invariant 0 <= i <= |missing|
      invariant r == FirstPerKey(Slug, missing[..i])
      invariant forall s :: s in seen <==> s in missing[..i]
    {
      assert missing[..i + 1][..i] == missing[..i] && missing[..i + 1] == missing[..i] + [missing[i]];
      assert missing[i] in missing[..i] <==> exists k | 0 <= k < i :: Slug(missing[..i][k]) == Slug(missing[i]);
      if missing[i] !in seen {
        seen := seen + {missing[i]};
        r := r + [missing[i]];
      }
      i := i + 1;
    }
    assert missing[..i] == missing;
  }

  lemma {:induction false} MissingAre(events: seq<StarEvent>, skills: map<string, SkillId>, slug: string)
    ensures slug in MissingSlugs(events, skills) <==> slug !in skills && exists e | e in events :: e.slug == slug
  {
    if events != [] {
      var n := |events| - 1;
      MissingAre(events[..n], skills, slug);
      assert events == events[..n] + [events[n]];
    }
  }

  /** i is the first event that names its slug. */
  ghost predicate FirstMention(events: seq<StarEvent>, i: nat)
    requires i < |events|
  {
    forall j | 0 <= j < i :: events[j].slug != events[i].slug
  }

  lemma {:induction false} RefusedGrow(events: seq<StarEvent>, skills: map<string, SkillId>)
    requires events != []
    ensures var n := |events| - 1;
      var before := FirstPerKey(Slug, MissingSlugs(events[..n], skills));
      FirstPerKey(Slug, MissingSlugs(events, skills))
      == if events[n].slug !in skills && FirstMention(events, n) then before + [events[n].slug] else before
  {
    var n := |events| - 1;
    var missing, slug := MissingSlugs(events[..n], skills), events[n].slug;
    if slug !in skills {
      FirstPerKeyGrows(Slug, missing, slug);
      MissingAre(events[..n], skills, slug);
      assert (exists i | 0 <= i < |missing| :: Slug(missing[i]) == Slug(slug)) <==> slug in missing;
      assert (exists e | e in events[..n] :: e.slug == slug) <==> !FirstMention(events, n) by {
        if e :| e in events[..n] && e.slug == slug {
          var j :| 0 <= j < n && events[..n][j] == e;
        }
        if j :| 0 <= j < n && events[j].slug == slug {
          assert events[..n][j] in events[..n];
        }
      }
    } else {
      assert missing + [] == missing;
    }
  }

  /** The events at these positions are the first mentions of unknown slugs, in order, all of them. */
  ghost predicate RefusedAt(at: seq<nat>, listed: seq<string>, events: seq<StarEvent>, skills: map<string, SkillId>) {
    && |at| == |listed|
    && (forall i | 0 <= i < |at| ::
          at[i] < |events| && FirstMention(events, at[i]) && listed[i] == events[at[i]].slug && listed[i] !in skills)
    && (forall i, j | 0 <= i < j < |at| :: at[i] < at[j])
    && (forall k: nat | k < |events| && FirstMention(events, k) && events[k].slug !in skills :: k in at)
  }

  lemma MentionsOfPrefix(events: seq<StarEvent>, n: nat)
    requires n <= |events|
    ensures forall k: nat | k < n :: FirstMention(events, k) <==> FirstMention(events[..n], k)
  {
    assert forall k | 0 <= k < n :: events[..n][k] == events[k];
  }

  lemma RefusedAtGrows(at: seq<nat>, listed: seq<string>, events: seq<StarEvent>, skills: map<string, SkillId>)
    requires events != [] && RefusedAt(at, listed, events[..|events| - 1], skills)
    ensures var n := |events| - 1;
      if events[n].slug !in skills && FirstMention(events, n)
        then RefusedAt(at + [n], listed + [events[n].slug], events, skills)
      else RefusedAt(at, listed, events, skills)
  {
    hide FirstMention;
    var n := |events| - 1;
    var longer := at + [n];
    MentionsOfPrefix(events, n);
    assert forall k | 0 <= k < n :: events[..n][k] == events[k];
    assert longer[|at|] == n && forall i | 0 <= i < |at| :: longer[i] == at[i];
  }

  lemma NothingRefused(skills: map<string, SkillId>)
    ensures RefusedAt([], FirstPerKey(Slug, MissingSlugs([], skills)), [], skills)
  {
  }

  /** The slugs a refusal lists: those that are mentioned and not known, each once, in order of first
      mention. */
  lemma {:induction false} RefusedSlugsAre(events: seq<StarEvent>, skills: map<string, SkillId>) returns (at: seq<nat>)
    ensures RefusedAt(at, FirstPerKey(Slug, MissingSlugs(events, skills)), events, skills)
  {
    hide RefusedAt, FirstMention, MissingSlugs, FirstPerKey;
    at := [];
    NothingRefused(skills);
    if events != [] {
      var n := |events| - 1;
      at := RefusedSlugsAre(events[..n], skills);
      RefusedGrow(events, skills);
      RefusedAtGrows(at, FirstPerKey(Slug, MissingSlugs(events[..n], skills)), events, skills);
      if events[n].slug !in skills && FirstMention(events, n) {
        at := at + [n];
      }
    }
  }

  class StarStore {
    var skills: map<string, SkillId>
    var stars: StarTable

    /** Unknown slugs refuse the whole batch; otherwise events apply in order and every event
        reports the count right after it. */
    method ApplyUserStarEvents(user: string, events: seq<StarEvent>) returns (outcome: Outcome)
      modifies `stars
      ensures var missing := MissingSlugs(events, skills);
        if missing == [] then
          && (forall e | e in events :: e.slug in skills)
          && stars == AfterEvents(old(stars), skills, user, events)
          && outcome == Counts(CountsAfter(old(stars), skills, user, events))
        else stars == old(stars) && outcome == UnknownSkills(FirstPerKey(Slug, missing))
    {
      NothingMissing(events, skills);
      var missing := MissingSlugs(events, skills);
      if missing != [] {
        var unique := UniqueSlugs(missing);
        return UnknownSkills(unique);
      }
      var view, results, i := stars, [], 0;
      while i < |events|
        invariant 0 <= i <= |events|
        invariant view == AfterEvents(stars, skills, user, events[..i])
        invariant results == CountsAfter(stars, skills, user, events[..i])
      {
        var skill := skills[events[i].slug];
        assert events[..i + 1][..i] == events[..i];
        var present := (user, skill) in view;
        if events[i].star && !present {
          view := view + {(user, skill)};
        } else if !events[i].star && present {
          view := view - {(user, skill)};
        }
        assert view == Starred(AfterEvents(stars, skills, user, events[..i]), user, skill, events[i].star);
        results := results + [StarCount(events[i].slug, CountOf(view, skill))];
        i := i + 1;
      }
      assert events[..i] == events;
      stars := view;
      outcome := Counts(results);
    }
  }

  // --- Laws of a batch ---------------------------------------------------------------------------

  function LastAction(events: seq<StarEvent>, slug: string): Option<bool> {
    if events == [] then None
    else if events[|events| - 1].slug == slug then Some(events[|events| - 1].star)
    else LastAction(events[..|events| - 1], slug)
  }

  ghost predicate UniqueIds(skills: map<string, SkillId>) {
    forall s, t | s in skills && t in skills && skills[s] == skills[t] :: s == t
  }

  /** The last event of a slug decides; unmentioned skills and other users are untouched. */
  lemma {:induction false} LastWriterWins(stars: StarTable, skills: map<string, SkillId>, user: string,
      events: seq<StarEvent>, who: string, slug: string)
    requires UniqueIds(skills) && slug in skills
    requires forall e | e in events :: e.slug in skills
    ensures (who, skills[slug]) in AfterEvents(stars, skills, user, events)
      <==> if who == user && LastAction(events, slug).Some?
        then LastAction(events, slug).value else (who, skills[slug]) in stars
  {
    if events != [] {
      var n := |events| - 1;
      LastWriterWins(stars, skills, user, events[..n], who, slug);
      assert events[n] in events;
    }
  }

  lemma {:induction false} OnlyKnownSkillsChange(stars: StarTable, skills: map<string, SkillId>, user: string,
      events: seq<StarEvent>, row: (string, SkillId))
    requires forall e | e in events :: e.slug in skills
    requires row.1 !in skills.Values
    ensures row in AfterEvents(stars, skills, user, events) <==> row in stars
  {
    if events != [] {
      var n := |events| - 1;
      OnlyKnownSkillsChange(stars, skills, user, events[..n], row);
      assert events[n] in events && skills[events[n].slug] in skills.Values;
    }
  }

  /** Sending the same batch again changes nothing. */
  lemma BatchIsIdempotent(stars: StarTable, skills: map<string, SkillId>, user: string, events: seq<StarEvent>)
    requires UniqueIds(skills) && forall e | e in events :: e.slug in skills
    ensures AfterEvents(AfterEvents(stars, skills, user, events), skills, user, events)
      == AfterEvents(stars, skills, user, events)
  {
    var once := AfterEvents(stars, skills, user, events);
    forall row: (string, SkillId) ensures row in AfterEvents(once, skills, user, events) <==> row in once {
      if row.1 in skills.Values {
        var slug :| slug in skills && skills[slug] == row.1;
        LastWriterWins(stars, skills, user, events, row.0, slug);
        LastWriterWins(once, skills, user, events, row.0, slug);
      } else {
        OnlyKnownSkillsChange(once, skills, user, events, row);
      }
    }
  }

  ghost function UsersStarring(stars: StarTable, skill: SkillId): set<string> {
    set s | s in RowsOf(stars, skill) :: s.0
  }

  lemma RowsAreUsers(stars: StarTable, skill: SkillId)
    ensures CountOf(stars, skill) == |UsersStarring(stars, skill)|
  {
    var f := (s: (string, SkillId)) => s.0;
    InjectiveImageSize(f, RowsOf(stars, skill));
    assert ImageOf(f, RowsOf(stars, skill)) == UsersStarring(stars, skill);
  }

  /** The i-th reported count is the number of distinct users starring that skill after the first
      i events. */
  lemma {:induction false} ReportedCountIsUsersAfter(stars: StarTable, skills: map<string, SkillId>, user: string,
      events: seq<StarEvent>, i: nat)
    requires i < |events| && forall e | e in events :: e.slug in skills
    ensures CountsAfter(stars, skills, user, events)[i]
         == StarCount(events[i].slug,
           |UsersStarring(AfterEvents(stars, skills, user, events[..i + 1]), skills[events[i].slug])|)
  {
    var n := |events| - 1;
    if i < n {
      assert events[..n][..i + 1] == events[..i + 1];
      ReportedCountIsUsersAfter(stars, skills, user, events[..n], i);
    } else {
      assert events[..i + 1] == events;
      RowsAreUsers(AfterEvents(stars, skills, user, events), skills[events[i].slug]);
    }
  }

  // --- Row locks ------------------------------------------------------------------------------------

  /** A transaction locks the rows it wants in the order listed and holds them to the commit. */
  datatype Locker = Locker(wants: seq<SkillId>, held: nat)

  type Lockers = map<int, Locker>

  predicate Holds(t: Locker, row: SkillId) {
    exists i | 0 <= i < t.held && i < |t.wants| :: t.wants[i] == row
  }

  /** `ORDER BY id` of SELECT ... FOR UPDATE. */
  ghost predicate LocksInIdOrder(t: Locker) {
    && t.held <= |t.wants|
    && forall i, j | 0 <= i < j < |t.wants| :: t.wants[i] < t.wants[j]
  }

  datatype LockStep = Begin(tx: int, wants: seq<SkillId>) | Acquire(tx: int) | Commit(tx: int)

  ghost predicate Enabled(s: Lockers, step: LockStep) {
    match step
    case Begin(tx, wants) => tx !in s && LocksInIdOrder(Locker(wants, 0))
    case Acquire(tx) =>
      && tx in s && s[tx].held < |s[tx].wants|
      && forall u | u in s :: !Holds(s[u], s[tx].wants[s[tx].held])
    case Commit(tx) => tx in s && s[tx].held == |s[tx].wants|
  }

  ghost function Next(s: Lockers, step: LockStep): Lockers
    requires Enabled(s, step)
  {
    match step
    case Begin(tx, wants) => s[tx := Locker(wants, 0)]
    case Acquire(tx) => s[tx := s[tx].(held := s[tx].held + 1)]
    case Commit(tx) => s - {tx}
  }

  ghost predicate LockInvariant(s: Lockers) {
    && (forall t | t in s :: LocksInIdOrder(s[t]))
    && (forall t, u, row | t in s && u in s && Holds(s[t], row) && Holds(s[u], row) :: t == u)
  }

  lemma HoldsBefore(s: Lockers, step: LockStep, t: int, row: SkillId)
    requires LockInvariant(s) && Enabled(s, step) && t in Next(s, step) && Holds(Next(s, step)[t], row)
    ensures (t in s && Holds(s[t], row)) || (step == Acquire(t) && row == s[t].wants[s[t].held])
  {
  }

  lemma LockStepKeepsInvariant(s: Lockers, step: LockStep)
    requires LockInvariant(s) && Enabled(s, step)
    ensures LockInvariant(Next(s, step))
  {
    var n := Next(s, step);
    forall t, u, row | t in n && u in n && Holds(n[t], row) && Holds(n[u], row) ensures t == u {
      HoldsBefore(s, step, t, row);
      HoldsBefore(s, step, u, row);
    }
  }

  /** The state after a run of lock steps. */
  ghost predicate Reaches(states: seq<Lockers>, steps: seq<LockStep>) {
    && |states| == |steps| + 1 && states[0] == map[]
    && forall i | 0 <= i < |steps| :: Enabled(states[i], steps[i]) && states[i + 1] == Next(states[i], steps[i])
  }

  lemma {:induction false} LocksStayExclusive(states: seq<Lockers>, steps: seq<LockStep>, n: nat)
    requires Reaches(states, steps) && n < |states|
    ensures LockInvariant(states[n])
  {
    if n > 0 {
      LocksStayExclusive(states, steps, n - 1);
      LockStepKeepsInvariant(states[n - 1], steps[n - 1]);
    }
  }

  /** Row by row: in no run do two open transactions hold the same row, whichever of their locks it is. */
  lemma LockedRowsAreApart(states: seq<Lockers>, steps: seq<LockStep>, n: nat, t: int, u: int, i: nat, j: nat)
    requires Reaches(states, steps) && n < |states| && t in states[n] && u in states[n] && t != u
    requires i < states[n][t].held && j < states[n][u].held
    ensures i < |states[n][t].wants| && j < |states[n][u].wants| && states[n][t].wants[i] != states[n][u].wants[j]
  {
    LocksStayExclusive(states, steps, n);
    assert Holds(states[n][t], states[n][t].wants[i]) && Holds(states[n][u], states[n][u].wants[j]);
  }

  /** A transaction gets its next row exactly when no open transaction has locked that row already. */
  lemma AcquireIsEnabledIff(s: Lockers, tx: int)
    requires LockInvariant(s) && tx in s && s[tx].held < |s[tx].wants|
    ensures Enabled(s, Acquire(tx)) <==>
      forall u, i | u in s && 0 <= i < s[u].held :: s[u].wants[i] != s[tx].wants[s[tx].held]
  {
    var row := s[tx].wants[s[tx].held];
    forall u | u in s ensures Holds(s[u], row) <==> exists i | 0 <= i < s[u].held :: s[u].wants[i] == row {
    }
  }

  lemma {:induction false} InIdOrder(rows: set<SkillId>) returns (wants: seq<SkillId>)
    ensures forall row :: row in wants <==> row in rows
    ensures forall i, j | 0 <= i < j < |wants| :: wants[i] < wants[j]
  {
    if rows == {} {
      wants := [];
    } else {
      var top := MaxOf(rows);
      var below := InIdOrder(rows - {top});
      wants := below + [top];
      assert forall i | 0 <= i < |below| :: below[i] in below;
    }
  }

  /** Whatever rows a batch is about, it can start to lock just these, at any time. */
  lemma EveryBatchMayBegin(s: Lockers, tx: int, rows: set<SkillId>) returns (wants: seq<SkillId>)
    requires tx !in s
    ensures Enabled(s, Begin(tx, wants)) && (forall row :: row in wants <==> row in rows)
    ensures var t := Next(s, Begin(tx, wants)); tx in t && t[tx].held == 0 && t[tx].wants == wants && t - {tx} == s
  {
    wants := InIdOrder(rows);
    assert s[tx := Locker(wants, 0)] - {tx} == s;
  }

  function Wanted(t: Locker): SkillId
    requires t.held < |t.wants|
  {
    t.wants[t.held]
  }

  lemma HeldRowsPrecedeTheWanted(t: Locker)
    requires LocksInIdOrder(t) && t.held < |t.wants|
    ensures forall row | Holds(t, row) :: row < Wanted(t)
  {
  }

  /** The waiting transaction with the greatest wanted row can go on, or the holder of that row
      can commit. */
  lemma SomeoneCanMove(s: Lockers) returns (step: LockStep)
    requires LockInvariant(s) && s != map[]
    ensures (step.Acquire? || step.Commit?) && Enabled(s, step)
  {
    var waiting := set t | t in s && s[t].held < |s[t].wants|;
    if waiting == {} {
      var t := Member(s.Keys);
      assert t !in waiting && LocksInIdOrder(s[t]);
      step := Commit(t);
    } else {
      var wanted := set t | t in waiting :: Wanted(s[t]);
      var some := Member(waiting);
      assert Wanted(s[some]) in wanted;
      var top := MaxOf(wanted);
      var t :| t in waiting && Wanted(s[t]) == top;
      if forall u | u in s :: !Holds(s[u], top) {
        step := Acquire(t);
      } else {
        var u :| u in s && Holds(s[u], top);
        forall v | v in waiting ensures !Holds(s[v], top) {
          HeldRowsPrecedeTheWanted(s[v]);
          assert Wanted(s[v]) in wanted;
        }
        assert u !in waiting && LocksInIdOrder(s[u]);
        step := Commit(u);
      }
    }
  }

  /** Any number of concurrent batches, each locking its skill rows in increasing id order and
      holding them to the commit, never deadlock: whenever a transaction is open, some open
      transaction can take its next lock or commit. */
  lemma BatchesNeverDeadlock(states: seq<Lockers>, steps: seq<LockStep>, n: nat)
    requires Reaches(states, steps) && n < |states| && states[n] != map[]
    ensures exists step: LockStep :: (step.Acquire? || step.Commit?) && Enabled(states[n], step)
  {
    LocksStayExclusive(states, steps, n);
    var step := SomeoneCanMove(states[n]);
  }
}
