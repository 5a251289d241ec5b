/** The writer is never stuck: from every reachable state it can be brought to the end of its load. */
module WatchdogProgress {
  import opened DataWatchdog

  // ---- which segment a key stands for

  /** No two keys stand for one segment, and a segment swapped out is found under its own key at most. */
  ghost predicate IdsApart(named: map<nat, nat>, gone: seq<Old>) {
    && (forall j, k :: j in named && k in named && named[j] == named[k] ==> j == k)
    && (forall j, k :: 0 <= j < |gone| && k in named && named[k] == gone[j].id ==> k == gone[j].key)
  }

  /** A server that was never constructed serves nothing. */
  ghost predicate OffIsUnused(servers: seq<Server>) {
    forall i :: 0 <= i < |servers| && servers[i].phase == Off ==> !servers[i].started
  }

  lemma RetiredApart(g: Shared, region: Region)
    requires IdsApart(g.named, g.gone) && (region.timestamp > 0 ==> region.key in g.named)
    ensures IdsApart(g.named, g.gone + Retired(g, region))
  {}

  lemma WriterKeepsIds(s: State, step: Step)
    requires !OfServer(step) && WriterEnabled(s, step) && SharedInv(s.shared) && IdsApart(s.shared.named, s.shared.gone)
    ensures var g' := WriterStep(s.shared, step); IdsApart(g'.named, g'.gone)
  {
    var g := s.shared;
    hide KeysOk, PublishedOk;
    if step.SwapStatic? {
      RetiredApart(g, g.st);
    } else if step.SwapUpdatable? {
      RetiredApart(g, g.up);
    }
    hide Retired;
  }

  lemma StepKeepsApart(s: State, step: Step)
    requires Inv(s) && Enabled(s, step) && IdsApart(s.shared.named, s.shared.gone) && OffIsUnused(s.servers)
    ensures var s' := Apply(s, step); IdsApart(s'.shared.named, s'.shared.gone) && OffIsUnused(s'.servers)
  {
    if !OfServer(step) {
      WriterKeepsIds(s, step);
      hide SharedInv, ServerInv, WriterStep, WriterEnabled, IdsApart;
    } else {
      hide SharedInv, ServerInv, IdsApart;
    }
  }

  lemma {:induction false} RunsKeepApart(s: State, steps: seq<Step>, s': State)
    requires Inv(s) && Leads(s, steps, s') && IdsApart(s.shared.named, s.shared.gone) && OffIsUnused(s.servers)
    ensures IdsApart(s'.shared.named, s'.shared.gone) && OffIsUnused(s'.servers)
    decreases |steps|
  {
    hide Inv, WriterEnabled, ServerEnabled, Apply, IdsApart, OffIsUnused;
    if steps != [] {
      StepKeepsInv(s, steps[0]);
      StepKeepsApart(s, steps[0]);
      RunsKeepApart(Apply(s, steps[0]), steps[1..], s');
    }
  }

  lemma ReachableApart(s: State)
    requires Reachable(s)
    ensures IdsApart(s.shared.named, s.shared.gone) && OffIsUnused(s.servers)
  {
    var s0, steps :| Init(s0) && Leads(s0, steps, s);
    InitInv(s0);
    hide Inv, Leads;
    RunsKeepApart(s0, steps, s);
  }

  // ---- how far everybody is from letting the old segments go

  /** How far the writer is from removing what it has swapped out. */
  function WriterRank(w: Writer): nat {
    match w
    case Opening(_) => 7
    case Filling(_, _, _) => 6
    case Ready(_, _, _) => 5
    case Swapping(_, _, _, done) => if done <= 2 then 4 - done else 0
    case Unlocked => 1
    case _ => 0
  }

  function OldLeft(g: Shared): nat {
    2 * |g.gone| + if g.writer.Removing? then 1 else 0
  }

  /** How far a server is from serving the regions in the register, and its readers from holding nothing. */
  function Lag(g: Shared, sv: Server): nat {
    PhaseLag(UpToDate(g, sv), sv.phase) + 2 * |sv.inside| + |sv.held|
  }

  function PhaseLag(upToDate: bool, phase: Phase): nat {
    match phase
    case Off => 0
    case Outside => if upToDate then 0 else 8
    case Waiting => if upToDate then 0 else 8
    case Locked => if upToDate then 1 else 7
    case CopiedStatic => 6
    case Copied => 5
    case SwapLocked => 4
    case Installed => 3
    case Leaving => 2
  }

  function TotalLag(g: Shared, servers: seq<Server>): nat {
    if servers == [] then 0 else TotalLag(g, servers[..|servers| - 1]) + Lag(g, servers[|servers| - 1])
  }

  lemma {:induction false} SameLag(g: Shared, g': Shared, servers: seq<Server>)
    requires g.st == g'.st && g.up == g'.up
    ensures TotalLag(g, servers) == TotalLag(g', servers)
    decreases |servers|
  {
    if servers != [] { SameLag(g, g', servers[..|servers| - 1]); }
  }

  /** One server that comes closer brings all of them closer. */
  lemma {:induction false} LessLag(g: Shared, g': Shared, servers: seq<Server>, i: nat, sv: Server)
    requires g.st == g'.st && g.up == g'.up && i < |servers| && Lag(g', sv) < Lag(g, servers[i])
    ensures TotalLag(g', servers[i := sv]) < TotalLag(g, servers)
    decreases |servers|
  {
    hide Lag;
    var n := |servers| - 1;
    var servers' := servers[i := sv];
    if i == n {
      assert servers'[..n] == servers[..n];
      SameLag(g, g', servers[..n]);
    } else {
      assert servers'[..n] == servers[..n][i := sv];
      LessLag(g, g', servers[..n], i, sv);
      assert Lag(g, servers[n]) == Lag(g', servers[n]) by { SameLagOne(g, g', servers[n]); }
    }
  }

  lemma SameLagOne(g: Shared, g': Shared, sv: Server)
    requires g.st == g'.st && g.up == g'.up
    ensures Lag(g, sv) == Lag(g', sv)
  {}

  /** The step starts nothing: no load, no server, no reader; and nobody gives up. */
  predicate Quiet(step: Step) {
    !step.OpenStatic? && !step.BeginMetric? && !step.Construct? && !step.GetBegin? && !GivesUp(step)
  }

  /** The step brings the writer closer to the end of its load. */
  ghost predicate Helps(s: State, step: Step) {
    && Quiet(step) && Enabled(s, step)
    && var g, s' := s.shared, Apply(s, step);
       var g' := s'.shared;
       || g'.writer.Idle?
       || WriterRank(g'.writer) < WriterRank(g.writer)
       || (WriterRank(g'.writer) == WriterRank(g.writer) && OldLeft(g') < OldLeft(g))
       || (WriterRank(g'.writer) == WriterRank(g.writer) && OldLeft(g') == OldLeft(g)
           && TotalLag(g', s'.servers) < TotalLag(g, s.servers))
  }

  // ---- the steps of servers and readers

  lemma ReaderLag(g: Shared, sv: Server, step: Step, i: nat)
    requires (step.GetEnd? || step.Drop?) && step.i == i && ServerEnabled(g, sv, step)
    ensures Lag(g, ServerStep(g, sv, step)) < Lag(g, sv)
  {
    if step.GetEnd? {
      Without(sv.inside, step.r);
      With(sv.held, step.r, sv.facade);
    } else {
      WithoutKey(sv.held, step.r);
    }
    hide PhaseLag;
  }

  lemma Without(inside: set<nat>, r: nat)
    requires r in inside
    ensures |inside - {r}| == |inside| - 1
  {}

  lemma With(held: map<nat, Facade>, r: nat, f: Facade)
    ensures |held[r := f]| <= |held| + 1
  {
    assert held[r := f].Keys == held.Keys + {r};
  }

  lemma WithoutKey(held: map<nat, Facade>, r: nat)
    requires r in held
    ensures |held - {r}| == |held| - 1
  {
    assert (held - {r}).Keys == held.Keys - {r};
  }

  lemma WatcherLag(g: Shared, sv: Server, step: Step, i: nat)
    requires OfServer(step) && step.i == i && ServerEnabled(g, sv, step) && CopiesOk(g, sv)
    requires !step.Construct? && !step.GetBegin? && !step.GetEnd? && !step.Drop?
    requires (step.Lock? || step.Wake?) ==> !UpToDate(g, sv)
    ensures Lag(g, ServerStep(g, sv, step)) < Lag(g, sv)
  {}

  /** A step of a server that lowers its lag helps. */
  lemma ServerHelps(s: State, step: Step)
    requires OfServer(step) && Quiet(step) && Enabled(s, step)
    requires Lag(s.shared, ServerStep(s.shared, s.servers[step.i], step)) < Lag(s.shared, s.servers[step.i])
    ensures Helps(s, step)
  {
    var g, i := s.shared, step.i;
    var g' := Apply(s, step).shared;
    var sv := ServerStep(g, s.servers[i], step);
    hide Lag, ServerEnabled, ServerStep, TotalLag;
    SameLagOne(g, g', sv);
    LessLag(g, g', s.servers, i, sv);
  }

  /** While a server holds the region mutex, its next move helps. */
  lemma HolderHelps(s: State, i: nat)
    requires Reachable(s) && i < |s.servers| && s.shared.owner == TheServer(i)
    ensures Helps(s, MoveOf(s.shared, s.servers[i], i))
  {
    var g, sv := s.shared, s.servers[i];
    var step := MoveOf(g, sv, i);
    ServerAdvances(s, i);
    assert CopiesOk(g, sv) by {
      ReachableInv(s);
      assert ServerInv(g, sv, i);
    }
    hide Reachable, Lag, CopiesOk, UpToDate;
    if step.GetEnd? {
      ReaderLag(g, sv, step, i);
    } else {
      WatcherLag(g, sv, step, i);
    }
    ServerHelps(s, step);
  }

  // ---- a server that keeps an old segment attached

  /** A factory that still maps a segment swapped out is behind the register. */
  lemma AttachedIsBehind(g: Shared, sv: Server, i: nat)
    requires SharedInv(g) && ServerInv(g, sv, i) && IdsApart(g.named, g.gone)
    requires g.writer.Detaching? && g.gone != [] && sv.started && Attaches(sv.facade, g.gone[0].id)
    requires sv.phase == Outside || sv.phase == Waiting
    ensures !UpToDate(g, sv)
  {
    SameStampSameRegion(g, sv);
    KeyIsGone(g.gone, 0);
    CurrentPairIsFacade(g);
    assert g.st.key in RegisterKeys(g.st, g.up) && g.up.key in RegisterKeys(g.st, g.up);
    assert g.gone[0].key !in RegisterKeys(g.st, g.up);
    hide PublishedOk, FreshOk, KeysOk, RegisterOk, SegmentsOk;
  }

  /** The next step of a server, or of one of its readers, that keeps an old segment attached. */
  ghost function DetachMove(sv: Server, i: nat): Step {
    if sv.inside != {} then var r :| r in sv.inside; GetEnd(i, r)
    else if sv.held != map[] then var r :| r in sv.held; Drop(i, r)
    else if sv.phase == Outside then Lock(i) else Wake(i)
  }

  lemma DetachingLag(g: Shared, sv: Server, i: nat)
    requires SharedInv(g) && ServerInv(g, sv, i) && IdsApart(g.named, g.gone) && (sv.phase == Off ==> !sv.started)
    requires g.owner == Nobody && g.writer.Detaching? && g.gone != [] && AttachedBy(sv, g.gone[0].id)
    ensures var step := DetachMove(sv, i);
            OfServer(step) && step.i == i && Quiet(step) && ServerEnabled(g, sv, step)
            && Lag(g, ServerStep(g, sv, step)) < Lag(g, sv)
  {
    var step := DetachMove(sv, i);
    hide SharedInv, IdsApart, FacadesOk, Lag, CopiesOk;
    if sv.inside != {} || sv.held != map[] {
      hide ServerInv, UpToDate, AttachedBy;
      ReaderLag(g, sv, step, i);
    } else {
      assert sv.phase == Outside || sv.phase == Waiting;
      AttachedIsBehind(g, sv, i);
      WatcherLag(g, sv, step, i);
    }
  }

  lemma AttachedHelps(s: State, i: nat)
    requires Reachable(s) && i < |s.servers| && s.shared.owner == Nobody && s.shared.writer.Detaching?
    requires s.shared.gone != [] && AttachedBy(s.servers[i], s.shared.gone[0].id)
    ensures Helps(s, DetachMove(s.servers[i], i))
  {
    ReachableInv(s);
    ReachableApart(s);
    hide SharedInv, ServerInv, Reachable, Lag, IdsApart, AttachedBy, DetachMove, ServerStep, ServerEnabled, Quiet;
    hide Helps;
    assert ServerInv(s.shared, s.servers[i], i);
    DetachingLag(s.shared, s.servers[i], i);
    ServerHelps(s, DetachMove(s.servers[i], i));
  }

  // ---- the steps of the writer

  lemma UnusedKey(inUse: set<nat>) returns (k: nat)
    ensures k !in inUse
  {
    k := 0;
    var seen: set<nat> := {};
    while k in inUse
      invariant seen <= inUse && forall j :: j in seen ==> j < k
      decreases |inUse - seen|
    {
      assert inUse - (seen + {k}) < inUse - seen;
      seen, k := seen + {k}, k + 1;
    }
  }

  lemma WriterStepHelps(s: State, step: Step)
    requires !OfServer(step) && Quiet(step) && WriterEnabled(s, step)
    requires var g, g' := s.shared, WriterStep(s.shared, step);
             || g'.writer.Idle?
             || WriterRank(g'.writer) < WriterRank(g.writer)
             || (WriterRank(g'.writer) == WriterRank(g.writer) && OldLeft(g') < OldLeft(g))
    ensures Helps(s, step)
  {
    hide WriterEnabled, WriterStep, WriterRank, OldLeft, TotalLag, Posted, Quiet;
  }

  lemma LoadHelps(s: State) returns (step: Step)
    requires s.shared.owner == Nobody
    requires s.shared.writer.Opening? || s.shared.writer.Filling? || s.shared.writer.Ready?
    ensures Helps(s, step)
  {
    var g := s.shared;
    hide Helps, Filled, Find, AttachedAnywhere;
    if g.writer.Opening? {
      var k := UnusedKey(g.inUse);
      step := OpenUpdatable(k);
    } else {
      step := if g.writer.Filling? then Fill(0, 0) else LockWriter;
    }
    WriterStepHelps(s, step);
  }

  lemma CleanUpHelps(s: State) returns (step: Step)
    requires s.shared.owner == Nobody
    requires s.shared.writer.Unlocked? || s.shared.writer.Removing? || s.shared.writer.Detaching?
    requires s.shared.writer.Detaching? ==>
               s.shared.gone != [] && !AttachedAnywhere(s.servers, s.shared.gone[0].id)
    ensures Helps(s, step)
  {
    var g := s.shared;
    hide Helps, Filled, Find, AttachedAnywhere;
    match g.writer {
      case Unlocked => step := Notify;
      case Removing => step := if g.gone != [] then RemoveOld else Finish;
      case Detaching => step := ReleaseOld;
    }
    WriterStepHelps(s, step);
  }

  /** With the mutex free, the writer goes on, unless it waits for somebody to detach. */
  lemma WriterHelps(s: State) returns (step: Step)
    requires Reachable(s) && s.shared.owner == Nobody && !s.shared.writer.Idle?
    requires s.shared.writer.Detaching? ==>
               s.shared.gone != [] && !AttachedAnywhere(s.servers, s.shared.gone[0].id)
    ensures Helps(s, step)
  {
    var w := s.shared.writer;
    assert !w.Swapping? by { ReachableInv(s); }
    hide *;
    if w.Opening? || w.Filling? || w.Ready? {
      step := LoadHelps(s);
    } else {
      step := CleanUpHelps(s);
    }
  }

  /** In every reachable state with a load under way, some step that starts nothing brings it closer to its end. */
  lemma SomethingHelps(s: State) returns (step: Step)
    requires Reachable(s) && !s.shared.writer.Idle?
    ensures Helps(s, step)
  {
    var g := s.shared;
    match g.owner {
      case TheServer(i) =>
        HolderCanMove(s);
        step := MoveOf(g, s.servers[i], i);
        HolderHelps(s, i);
      case TheWriter =>
        step := HolderMove(s);
        WriterAdvances(s);
        hide Reachable, TotalLag;
      case Nobody =>
        assert g.writer.Detaching? ==> g.gone != [] by { ReachableInv(s); }
        if g.writer.Detaching? && AttachedAnywhere(s.servers, g.gone[0].id) {
          var i :| 0 <= i < |s.servers| && AttachedBy(s.servers[i], g.gone[0].id);
          step := DetachMove(s.servers[i], i);
          AttachedHelps(s, i);
        } else {
          step := WriterHelps(s);
        }
    }
  }

  /**
   * From every reachable state a run that starts no load, no server and no reader, and in which
   * nobody gives up, ends the writer's load: the wait for clients to detach ends as well.
   */
  lemma {:induction false} WriterCanFinish(s: State) returns (steps: seq<Step>, s': State)
    requires Reachable(s)
    ensures Leads(s, steps, s') && s'.shared.writer.Idle?
    ensures forall step :: step in steps ==> Quiet(step)
    decreases WriterRank(s.shared.writer), OldLeft(s.shared), TotalLag(s.shared, s.servers)
  {
    if s.shared.writer.Idle? {
      steps, s' := [], s;
    } else {
      var step := SomethingHelps(s);
      var next := Onwards(s, step);
      hide Reachable, Enabled, Apply, WriterRank, OldLeft, TotalLag;
      if next.shared.writer.Idle? {
        steps, s' := [step], next;
        assert Leads(next, steps[1..], next);
      } else {
        var more: seq<Step>;
        more, s' := WriterCanFinish(next);
        steps := [step] + more;
        assert steps[1..] == more;
      }
    }
  }
}
