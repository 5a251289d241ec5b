/** What a load filled in is what it publishes, and what readers that get the pair find. */
module WatchdogData {
  import opened DataWatchdog
  import opened WatchdogProgress

  /**
   * `p` is what a load must publish after `before`: a new updatable region with its new data, and with
   * it a new static region with its new data, or else the very static region published last.
   */
  ghost predicate Delivers(before: seq<Pair>, full: bool, stData: int, upData: int, segments: seq<Segment>, p: Pair) {
    && p.stId < |segments| && p.upId < |segments| && segments[p.stId].filled && segments[p.upId].filled
    && segments[p.upId].data == upData
    && p.up.timestamp == 1 + (if before == [] then 0 else before[|before| - 1].up.timestamp)
    && if full then
         && segments[p.stId].data == stData
         && p.st.timestamp == 1 + (if before == [] then 0 else before[|before| - 1].st.timestamp)
       else before != [] && p.st == before[|before| - 1].st && p.stId == before[|before| - 1].stId
  }

  /** The pair that will be in the register when the writer gives its lock back. */
  ghost function Coming(g: Shared): Pair
    requires g.writer.Ready? || g.writer.Swapping?
  {
    var w := g.writer;
    var done := if w.Swapping? then w.done else 0;
    var st := if w.full && done == 0 then Region(g.st.timestamp + 1, w.st) else g.st;
    var up := if done <= 1 then Region(g.up.timestamp + 1, w.up) else g.up;
    Pair(st, up, Find(g.named, st.key), Find(g.named, up.key))
  }

  /** The writer still has to publish what it filled in, or it has. */
  ghost predicate Carried(before: seq<Pair>, full: bool, stData: int, upData: int, g: Shared) {
    && before <= g.published
    && if |g.published| == |before| then
         && (g.writer.Ready? || g.writer.Swapping?)
         && Delivers(before, full, stData, upData, g.segments, Coming(g))
       else Delivers(before, full, stData, upData, g.segments, g.published[|before|])
  }

  lemma FillIsCarried(s: State, stData: int, upData: int)
    requires Inv(s) && IdsApart(s.shared.named, s.shared.gone) && s.shared.writer.Filling?
    ensures Enabled(s, Fill(stData, upData))
    ensures Carried(s.shared.published, s.shared.writer.full, stData, upData, Apply(s, Fill(stData, upData)).shared)
  {
    hide KeysOk, ServerInv;
  }

  lemma WriterCarriesOn(before: seq<Pair>, full: bool, stData: int, upData: int, s: State, step: Step)
    requires !OfServer(step) && WriterEnabled(s, step) && !GivesUp(step) && s.shared.published == before
    requires Carried(before, full, stData, upData, s.shared)
    ensures Carried(before, full, stData, upData, WriterStep(s.shared, step))
  {
    hide Delivers, AttachedAnywhere, FreshKeys;
  }

  lemma CarriedOn(before: seq<Pair>, full: bool, stData: int, upData: int, s: State, step: Step)
    requires Inv(s) && Enabled(s, step) && !GivesUp(step) && Carried(before, full, stData, upData, s.shared)
    ensures Carried(before, full, stData, upData, Apply(s, step).shared)
  {
    if |s.shared.published| > |before| {
      StepIsOnward(s, step);
      hide Inv, Enabled, Apply;
    } else if OfServer(step) {
      hide Inv, ServerEnabled, ServerStep, OwnerAfter, Delivers;
    } else {
      WriterCarriesOn(before, full, stData, upData, s, step);
      hide Inv, WriterEnabled, WriterStep, Carried;
    }
  }

  lemma {:induction false} CarriedAlong(before: seq<Pair>, full: bool, stData: int, upData: int,
                                        s: State, steps: seq<Step>, s': State)
    requires Inv(s) && Leads(s, steps, s') && Carried(before, full, stData, upData, s.shared)
    requires forall i :: 0 <= i < |steps| ==> !GivesUp(steps[i])
    ensures Carried(before, full, stData, upData, s'.shared)
    decreases |steps|
  {
    hide Inv, WriterEnabled, ServerEnabled, Apply, Carried;
    if steps != [] {
      CarriedOn(before, full, stData, upData, s, steps[0]);
      StepKeepsInv(s, steps[0]);
      CarriedAlong(before, full, stData, upData, Apply(s, steps[0]), steps[1..], s');
    }
  }

  /**
   * In every run from a reachable state in which the writer fills in data, and after which nobody gives
   * up, the next pair published has the data of that step, in all states that follow.
   */
  lemma FilledDataArePublished(s: State, stData: int, upData: int, steps: seq<Step>, s': State)
    requires Reachable(s) && s.shared.writer.Filling? && Leads(Apply(s, Fill(stData, upData)), steps, s')
    requires forall i :: 0 <= i < |steps| ==> !GivesUp(steps[i])
    ensures var n := |s.shared.published|;
            && s.shared.published <= s'.shared.published
            && (|s'.shared.published| > n ==>
                  Delivers(s.shared.published, s.shared.writer.full, stData, upData,
                           s'.shared.segments, s'.shared.published[n]))
  {
    hide Inv, Enabled, Apply, IdsApart, OffIsUnused, Reachable, Leads, Delivers, Coming, GivesUp;
    ReachableInv(s);
    ReachableApart(s);
    FillIsCarried(s, stData, upData);
    StepKeepsInv(s, Fill(stData, upData));
    CarriedAlong(s.shared.published, s.shared.writer.full, stData, upData, Apply(s, Fill(stData, upData)), steps, s');
  }

  // ---- what was given up

  lemma NotFoundByStep(s: State, step: Step, k: nat)
    requires Inv(s) && Enabled(s, step) && k in s.shared.leaked && k !in s.shared.named
    ensures var g := Apply(s, step).shared; k in g.leaked && k !in g.named
  {
    hide ServerInv, FreshOk, RegisterOk, PublishedOk;
  }

  lemma {:induction false} NotFoundByRun(s: State, steps: seq<Step>, s': State, k: nat)
    requires Inv(s) && Leads(s, steps, s') && k in s.shared.leaked && k !in s.shared.named
    ensures k !in s'.shared.named
    decreases |steps|
  {
    hide Inv, WriterEnabled, ServerEnabled, Apply;
    if steps != [] {
      NotFoundByStep(s, steps[0], k);
      StepKeepsInv(s, steps[0]);
      NotFoundByRun(Apply(s, steps[0]), steps[1..], s', k);
    }
  }

  ghost predicate GivesUpSegment(g: Shared, step: Step, k: nat) {
    (step.Fail? && k in step.unmade) || (step.TimeOut? && k in FreshKeys(g.writer))
  }

  lemma NotFoundAtFirst(s: State, step: Step, k: nat)
    requires Enabled(s, step) && GivesUpSegment(s.shared, step, k)
    ensures var g := Apply(s, step).shared; k in g.leaked && k !in g.named
  {}

  /** Nobody ever finds a segment whose swap timed out, or one that was not made when its load failed. */
  lemma GivenUpIsNotFound(s: State, step: Step, steps: seq<Step>, s': State, k: nat)
    requires Reachable(s) && Enabled(s, step) && Leads(Apply(s, step), steps, s')
    requires GivesUpSegment(s.shared, step, k)
    ensures k !in s'.shared.named
  {
    hide Inv, WriterEnabled, ServerEnabled, Apply, Reachable, Leads, GivesUpSegment;
    ReachableInv(s);
    StepKeepsInv(s, step);
    NotFoundAtFirst(s, step, k);
    NotFoundByRun(Apply(s, step), steps, s', k);
  }
}
