/**
 * Datasets in shared memory: one writer at a time publishes regions, any number of servers watch
 * the register and hand the current pair of regions to readers. Every step is one that can be
 * interleaved with the steps of the others.
 */
module DataWatchdog {

  // ---- what is shared

  /** An entry of the region register; timestamp 0 means it is not registered yet. */
  datatype Region = Region(timestamp: nat, key: nat)

  /** A shared memory segment; `basis` is the static segment its data belongs to (itself for a static one). */
  datatype Segment = Segment(basis: nat, filled: bool, data: int)

  /** A static and an updatable region together with the segments their keys stood for. */
  datatype Pair = Pair(st: Region, up: Region, stId: nat, upId: nat)

  /** A segment that was swapped out of the register. */
  datatype Old = Old(key: nat, id: nat)

  /**
   * Where the writer is: it sets up the segments of a load one after the other, fills them, swaps them
   * in, notifies, and removes the old ones.
   */
  datatype Writer =
    | Idle
    | Opening(st: nat)
    | Filling(full: bool, st: nat, up: nat)
    | Ready(full: bool, st: nat, up: nat)
    | Swapping(full: bool, st: nat, up: nat, done: nat)
    | Unlocked
    | Removing
    | Detaching

  datatype Owner = Nobody | TheWriter | TheServer(i: nat)

  /**
   * `named` maps a key to the segment an attach by that key finds; `segments` are all ever created;
   * `gone` are swapped out and not yet released; `leaked` are keys that are never released because a
   * load failed or its swap timed out; `published` lists the pairs that were in the
   * register whenever a writer gave its lock back.
   */
  datatype Shared = Shared(st: Region, up: Region, inUse: set<nat>, named: map<nat, nat>, segments: seq<Segment>,
                           owner: Owner, writer: Writer, gone: seq<Old>, leaked: set<nat>, published: seq<Pair>)

  // ---- what each server has

  datatype Phase = Off | Outside | Waiting | Locked | CopiedStatic | Copied | SwapLocked | Installed | Leaving

  /** What the factory serves: the pair it was made from and that pair's place in `published`. */
  datatype Facade = Facade(at: nat, pair: Pair)

  datatype Server = Server(phase: Phase, stCopy: Region, upCopy: Region, started: bool, facade: Facade,
                           inside: set<nat>, held: map<nat, Facade>, posted: bool)

  datatype State = State(shared: Shared, servers: seq<Server>)

  // ---- steps

  datatype Step =
    | OpenStatic(k: nat) | OpenUpdatable(k: nat) | BeginMetric(k: nat) | Fill(stData: int, upData: int)
    | Fail(unmade: set<nat>) | TimeOut
    | LockWriter | SwapStatic | SwapUpdatable | UnlockWriter | Notify | RemoveOld | ReleaseOld | Finish
    | Construct(i: nat) | Lock(i: nat) | Wait(i: nat) | Wake(i: nat) | CopyStatic(i: nat) | CopyUpdatable(i: nat)
    | LockFactory(i: nat) | Install(i: nat) | UnlockFactory(i: nat) | Unlock(i: nat)
    | GetBegin(i: nat, r: nat) | GetEnd(i: nat, r: nat) | Drop(i: nat, r: nat)

  predicate Registered(g: Shared) { g.st.timestamp > 0 && g.up.timestamp > 0 }

  /** Timestamps the watcher remembers are those in the register. */
  predicate UpToDate(g: Shared, sv: Server) {
    sv.stCopy.timestamp == g.st.timestamp && sv.upCopy.timestamp == g.up.timestamp
  }

  predicate Attaches(f: Facade, id: nat) { f.pair.stId == id || f.pair.upId == id }

  /** Some factory, or some reader that was handed a facade, still maps the segment. */
  ghost predicate AttachedAnywhere(servers: seq<Server>, id: nat) {
    exists i :: 0 <= i < |servers| && AttachedBy(servers[i], id)
  }

  ghost predicate AttachedBy(sv: Server, id: nat) {
    (sv.started && Attaches(sv.facade, id)) || exists r :: r in sv.held && Attaches(sv.held[r], id)
  }

  ghost predicate WriterEnabled(s: State, step: Step) {
    var g := s.shared;
    match step
    case OpenStatic(k) => g.writer.Idle? && k !in g.inUse
    case OpenUpdatable(k) => g.writer.Opening? && k !in g.inUse
    case BeginMetric(k) => g.writer.Idle? && k !in g.inUse && g.st.timestamp > 0
    case Fill(_, _) => g.writer.Filling?
    case Fail(unmade) => (g.writer.Opening? || g.writer.Filling?) && unmade <= FreshKeys(g.writer)
    case TimeOut => g.writer.Ready?
    case LockWriter => g.writer.Ready? && g.owner == Nobody
    case SwapStatic => g.writer.Swapping? && g.writer.done == 0
    case SwapUpdatable => g.writer.Swapping? && g.writer.done == 1
    case UnlockWriter => g.writer.Swapping? && g.writer.done == 2
    case Notify => g.writer.Unlocked? && g.owner == Nobody
    case RemoveOld => g.writer.Removing? && g.gone != []
    case ReleaseOld => g.writer.Detaching? && g.gone != [] && !AttachedAnywhere(s.servers, g.gone[0].id)
    case Finish => g.writer.Removing? && g.gone == []
    case _ => false
  }

  predicate ServerEnabled(g: Shared, sv: Server, step: Step)
  {
    match step
    case Construct(_) => sv.phase == Off && g.owner == Nobody && Registered(g)
    case Lock(_) => sv.phase == Outside && g.owner == Nobody
    case Wait(_) => sv.phase == Locked && UpToDate(g, sv)
    case Wake(_) => sv.phase == Waiting && sv.posted && g.owner == Nobody
    case CopyStatic(_) => sv.phase == Locked && !UpToDate(g, sv)
    case CopyUpdatable(_) => sv.phase == CopiedStatic
    case LockFactory(_) => sv.phase == Copied && sv.inside == {}
    case Install(_) => sv.phase == SwapLocked && sv.stCopy.key in g.named && sv.upCopy.key in g.named
    case UnlockFactory(_) => sv.phase == Installed
    case Unlock(_) => sv.phase == Leaving
    case GetBegin(_, r) => sv.started && sv.phase != SwapLocked && sv.phase != Installed && r !in sv.inside
    case GetEnd(_, r) => r in sv.inside
    case Drop(_, r) => r in sv.held
    case _ => false
  }

  predicate OfServer(step: Step) {
    || step.Construct? || step.Lock? || step.Wait? || step.Wake? || step.CopyStatic? || step.CopyUpdatable?
    || step.LockFactory? || step.Install? || step.UnlockFactory? || step.Unlock? || step.GetBegin? || step.GetEnd?
    || step.Drop?
  }

  ghost predicate Enabled(s: State, step: Step) {
    if OfServer(step) then step.i < |s.servers| && ServerEnabled(s.shared, s.servers[step.i], step)
    else WriterEnabled(s, step)
  }

  /** What an attach by key finds. */
  function Find(named: map<nat, nat>, key: nat): nat {
    if key in named then named[key] else 0
  }

  function CurrentPair(g: Shared): Pair {
    Pair(g.st, g.up, Find(g.named, g.st.key), Find(g.named, g.up.key))
  }

  /** Fills the segment a key stands for. */
  function Filled(g: Shared, key: nat, data: int): seq<Segment> {
    var id := Find(g.named, key);
    if id < |g.segments| then g.segments[id := g.segments[id].(filled := true, data := data)] else g.segments
  }

  /** Replaces a register entry, or registers it with timestamp 1. */
  function Swapped(region: Region, key: nat): Region {
    Region(region.timestamp + 1, key)
  }

  function Retired(g: Shared, region: Region): seq<Old> {
    if region.timestamp > 0 then [Old(region.key, Find(g.named, region.key))] else []
  }

  /** A step of the writer; the semaphores it posts are in the servers. */
  function WriterStep(g: Shared, step: Step): Shared
    requires !OfServer(step)
  {
    var w := g.writer;
    var n := |g.segments|;
    match step
    case OpenStatic(k) =>
      g.(writer := Opening(k), inUse := g.inUse + {k}, named := g.named[k := n],
      segments := g.segments + [Segment(n, false, 0)])
    case OpenUpdatable(k) =>
      if w.Opening? then
        g.(writer := Filling(true, w.st, k), inUse := g.inUse + {k}, named := g.named[k := n],
        segments := g.segments + [Segment(Find(g.named, w.st), false, 0)])
      else g
    case BeginMetric(k) =>
      g.(writer := Filling(false, 0, k), inUse := g.inUse + {k}, named := g.named[k := n],
      segments := g.segments + [Segment(Find(g.named, g.st.key), false, 0)])
    case Fill(stData, upData) =>
      if w.Filling? then
        var g' := if w.full then g.(segments := Filled(g, w.st, stData)) else g;
        g.(writer := Ready(w.full, w.st, w.up), segments := Filled(g', w.up, upData))
      else g
    case Fail(unmade) => g.(writer := Idle, named := g.named - unmade, leaked := g.leaked + FreshKeys(w))
    case TimeOut =>
      if w.Ready? then
        var keys := if w.full then {w.st, w.up} else {w.up};
        g.(writer := Idle, named := g.named - keys, leaked := g.leaked + keys)
      else g
    case LockWriter => if w.Ready? then g.(writer := Swapping(w.full, w.st, w.up, 0), owner := TheWriter) else g
    case SwapStatic =>
      if w.Swapping? then
        if w.full then g.(writer := w.(done := 1), gone := g.gone + Retired(g, g.st), st := Swapped(g.st, w.st))
        else g.(writer := w.(done := 1))
      else g
    case SwapUpdatable =>
      if w.Swapping? then g.(writer := w.(done := 2), gone := g.gone + Retired(g, g.up), up := Swapped(g.up, w.up))
      else g
    case UnlockWriter =>
      if w.Swapping? then g.(writer := Unlocked, owner := Nobody, published := g.published + [CurrentPair(g)]) else g
    case Notify => if w.Unlocked? then g.(writer := Removing) else g
    case RemoveOld =>
      if w.Removing? && g.gone != [] then g.(writer := Detaching, named := g.named - {g.gone[0].key})
      else g
    case ReleaseOld =>
      if w.Detaching? && g.gone != [] then
        g.(writer := Removing, gone := g.gone[1..], inUse := g.inUse - {g.gone[0].key})
      else g
    case Finish => g.(writer := Idle)
  }

  function Posted(servers: seq<Server>): seq<Server> {
    seq(|servers|, i requires 0 <= i < |servers| => servers[i].(posted := true))
  }

  function ServerStep(g: Shared, sv: Server, step: Step): Server
    requires OfServer(step)
  {
    match step
    case Construct(_) => sv.(phase := Copied, stCopy := g.st, upCopy := g.up)
    case Lock(_) => sv.(phase := Locked)
    case Wait(_) => sv.(phase := Waiting, posted := false)
    case Wake(_) => sv.(phase := Locked)
    case CopyStatic(_) =>
      sv.(phase := CopiedStatic, stCopy := if sv.stCopy.timestamp != g.st.timestamp then g.st else sv.stCopy)
    case CopyUpdatable(_) =>
      sv.(phase := Copied, upCopy := if sv.upCopy.timestamp != g.up.timestamp then g.up else sv.upCopy)
    case LockFactory(_) => sv.(phase := SwapLocked)
    case Install(_) =>
      var pair := Pair(sv.stCopy, sv.upCopy, Find(g.named, sv.stCopy.key), Find(g.named, sv.upCopy.key));
      var at := if g.published == [] then 0 else |g.published| - 1;
      sv.(phase := Installed, facade := Facade(at, pair), started := true)
    case UnlockFactory(_) => sv.(phase := Leaving)
    case Unlock(_) => sv.(phase := Outside)
    case GetBegin(_, r) => sv.(inside := sv.inside + {r})
    case GetEnd(_, r) => sv.(inside := sv.inside - {r}, held := sv.held[r := sv.facade])
    case Drop(_, r) => sv.(held := sv.held - {r})
  }

  /** Who holds the region mutex after a server's step. */
  function OwnerAfter(g: Shared, step: Step): Owner
    requires OfServer(step)
  {
    match step
    case Construct(i) => TheServer(i)
    case Lock(i) => TheServer(i)
    case Wake(i) => TheServer(i)
    case Wait(_) => Nobody
    case Unlock(_) => Nobody
    case _ => g.owner
  }

  function Apply(s: State, step: Step): State
    requires OfServer(step) ==> step.i < |s.servers|
  {
    if OfServer(step) then
      State(s.shared.(owner := OwnerAfter(s.shared, step)),
            s.servers[step.i := ServerStep(s.shared, s.servers[step.i], step)])
    else
      State(WriterStep(s.shared, step), if step.Notify? then Posted(s.servers) else s.servers)
  }

  // ---- the invariant

  ghost predicate SegmentsOk(g: Shared) {
    forall k :: k in g.named ==> k in g.inUse && g.named[k] < |g.segments|
  }

  /** The keys of the register. */
  function RegisterKeys(st: Region, up: Region): set<nat> {
    (if st.timestamp > 0 then {st.key} else {}) + (if up.timestamp > 0 then {up.key} else {})
  }

  /** Keys the writer has reserved and not yet put into the register. */
  function FreshKeys(w: Writer): set<nat> {
    match w
    case Opening(st) => {st}
    case Filling(full, st, up) => if full then {st, up} else {up}
    case Ready(full, st, up) => if full then {st, up} else {up}
    case Swapping(full, st, up, done) => if done == 0 && full then {st, up} else if done <= 1 then {up} else {}
    case _ => {}
  }

  function GoneKeys(gone: seq<Old>): set<nat> {
    if gone == [] then {} else {gone[0].key} + GoneKeys(gone[1..])
  }

  ghost predicate DistinctKeys(gone: seq<Old>) {
    gone == [] || (gone[0].key !in GoneKeys(gone[1..]) && DistinctKeys(gone[1..]))
  }

  /** Every reserved key is in the register, about to go there, about to be released, or lost. */
  ghost predicate KeysOk(inUse: set<nat>, registered: set<nat>, reserved: set<nat>, gone: seq<Old>, leaked: set<nat>) {
    && inUse == registered + reserved + GoneKeys(gone) + leaked
    && registered !! reserved !! GoneKeys(gone) !! leaked
    && DistinctKeys(gone)
  }

  ghost predicate GoodStatic(g: Shared, key: nat) {
    && key in g.named && g.named[key] < |g.segments|
    && g.segments[g.named[key]].filled && g.segments[g.named[key]].basis == g.named[key]
  }

  /** An updatable segment with data for the static segment `basis`. */
  ghost predicate GoodUpdatable(g: Shared, key: nat, basis: nat) {
    && key in g.named && g.named[key] < |g.segments|
    && g.segments[g.named[key]].filled && g.segments[g.named[key]].basis == basis
  }

  ghost predicate FreshIs(g: Shared, key: nat, basis: nat, filled: bool) {
    && key in g.named && g.named[key] < |g.segments|
    && g.segments[g.named[key]].filled == filled && g.segments[g.named[key]].basis == basis
  }

  /** What the writer has prepared: new data that belongs together, or new data for the static region in place. */
  ghost predicate FreshOk(g: Shared) {
    var w := g.writer;
    match w
    case Idle => g.gone == []
    case Opening(st) => FreshIs(g, st, Find(g.named, st), false) && g.gone == []
    case Filling(full, st, up) => PreparedOk(g, full, st, up, false) && g.gone == []
    case Ready(full, st, up) => PreparedOk(g, full, st, up, true) && g.gone == []
    case Swapping(full, st, up, done) =>
      && done <= 2 && (done == 0 ==> PreparedOk(g, full, st, up, true) && g.gone == [])
      && (done == 2 ==> Registered(g))
      && (done == 1 ==> up in g.named && GoodUpdatable(g, up, Find(g.named, g.st.key)) && g.st.timestamp > 0)
    case Detaching => g.gone != [] && g.gone[0].key !in g.named
    case _ => true
  }

  ghost predicate PreparedOk(g: Shared, full: bool, st: nat, up: nat, filled: bool) {
    if full then st != up && FreshIs(g, st, Find(g.named, st), filled) && FreshIs(g, up, Find(g.named, st), filled)
    else g.st.timestamp > 0 && FreshIs(g, up, Find(g.named, g.st.key), filled)
  }

  /** The register holds nothing, or the data of its two regions belong together; only in mid-swap may they not. */
  ghost predicate RegisterOk(g: Shared) {
    && (g.st.timestamp > 0 ==> GoodStatic(g, g.st.key))
    && (!(g.writer.Swapping? && g.writer.done == 1) ==>
          && (g.st.timestamp > 0 <==> g.up.timestamp > 0)
          && (g.up.timestamp > 0 ==> GoodUpdatable(g, g.up.key, Find(g.named, g.st.key))))
    && (g.up.timestamp > 0 ==> g.st.timestamp > 0 && g.up.key in g.named)
  }

  /** A later pair has no smaller timestamps, and an equal timestamp means the very same region. */
  ghost predicate NotAfter(p: Pair, q: Pair) {
    && p.st.timestamp <= q.st.timestamp && (p.st.timestamp == q.st.timestamp ==> p.st == q.st && p.stId == q.stId)
    && p.up.timestamp <= q.up.timestamp && (p.up.timestamp == q.up.timestamp ==> p.up == q.up && p.upId == q.upId)
  }

  /** The segments of a pair are filled and belong together. */
  ghost predicate BelongTogether(segments: seq<Segment>, p: Pair) {
    && p.stId < |segments| && p.upId < |segments|
    && segments[p.stId].filled && segments[p.upId].filled
    && segments[p.stId].basis == p.stId && segments[p.upId].basis == p.stId
  }

  ghost predicate PublishedOk(g: Shared) {
    && (forall i :: 0 <= i < |g.published| ==> BelongTogether(g.segments, g.published[i]))
    && (forall i, j :: 0 <= i <= j < |g.published| ==> NotAfter(g.published[i], g.published[j]))
    && (forall i :: 0 <= i < |g.published| ==> NotAfter(g.published[i], CurrentPair(g)))
    && (!g.writer.Swapping? || g.writer.done == 0 ==>
          if Registered(g) then g.published != [] && g.published[|g.published| - 1] == CurrentPair(g)
              else g.published == [])
  }

  ghost predicate LockOk(g: Shared) {
    g.owner == TheWriter <==> g.writer.Swapping?
  }

  ghost predicate SharedInv(g: Shared) {
    && (g.st.timestamp > 0 && g.up.timestamp > 0 ==> g.st.key != g.up.key)
    && KeysOk(g.inUse, RegisterKeys(g.st, g.up), FreshKeys(g.writer), g.gone, g.leaked)
    && SegmentsOk(g) && FreshOk(g) && RegisterOk(g) && PublishedOk(g) && LockOk(g)
  }

  /** A facade in use is a published pair, and its keys stand for nothing else until it is dropped. */
  ghost predicate FacadeOk(published: seq<Pair>, inUse: set<nat>, named: map<nat, nat>, gone: seq<Old>, f: Facade) {
    && f.at < |published| && f.pair == published[f.at]
    && KeyKept(inUse, named, gone, f.pair.st.key, f.pair.stId)
    && KeyKept(inUse, named, gone, f.pair.up.key, f.pair.upId)
  }

  ghost predicate KeyKept(inUse: set<nat>, named: map<nat, nat>, gone: seq<Old>, key: nat, id: nat) {
    && key in inUse && (key in named ==> named[key] == id)
    && (forall j :: 0 <= j < |gone| && gone[j].key == key ==> gone[j].id == id)
  }

  ghost predicate FacadesOk(published: seq<Pair>, inUse: set<nat>, named: map<nat, nat>, gone: seq<Old>,
                            started: bool, facade: Facade, held: map<nat, Facade>) {
    && (started ==> FacadeOk(published, inUse, named, gone, facade))
    && (forall r :: r in held ==> FacadeOk(published, inUse, named, gone, held[r]) && held[r].at <= facade.at)
  }

  predicate HoldsRegion(phase: Phase) {
    phase != Off && phase != Outside && phase != Waiting
  }

  ghost predicate CopiesOk(g: Shared, sv: Server) {
    && (sv.phase in {Outside, Waiting, Locked} ==>
        sv.started && sv.stCopy == sv.facade.pair.st && sv.upCopy == sv.facade.pair.up)
    && (sv.phase == CopiedStatic ==> sv.started && sv.stCopy == g.st && sv.upCopy == sv.facade.pair.up)
    && (sv.phase in {Copied, SwapLocked, Installed, Leaving} ==>
        Registered(g) && sv.stCopy == g.st && sv.upCopy == g.up)
    && (sv.phase in {Installed, Leaving} ==>
        sv.started && sv.facade.pair == CurrentPair(g) && sv.facade.at == |g.published| - 1)
  }

  /** A sleeping watcher has seen the register as it is, or its wake-up call is still to come or already there. */
  ghost predicate WakeUpOk(g: Shared, sv: Server) {
    sv.phase == Waiting && !sv.posted ==> UpToDate(g, sv) || g.writer.Swapping? || g.writer.Unlocked?
  }

  ghost predicate ServerInv(g: Shared, sv: Server, i: nat) {
    && (g.owner == TheServer(i) <==> HoldsRegion(sv.phase))
    && FacadesOk(g.published, g.inUse, g.named, g.gone, sv.started, sv.facade, sv.held)
    && (sv.held != map[] || sv.inside != {} ==> sv.started)
    && (sv.inside != {} ==> sv.phase != SwapLocked && sv.phase != Installed)
    && CopiesOk(g, sv) && WakeUpOk(g, sv)
  }

  ghost predicate Inv(s: State) {
    && SharedInv(s.shared)
    && (forall i :: 0 <= i < |s.servers| ==> ServerInv(s.shared, s.servers[i], i))
    && (s.shared.owner.TheServer? ==> s.shared.owner.i < |s.servers|)
  }

  ghost predicate Init(s: State) {
    && s.shared == Shared(Region(0, 0), Region(0, 0), {}, map[], [], Nobody, Idle, [], {}, [])
    && forall i :: 0 <= i < |s.servers| ==>
        s.servers[i].phase == Off && !s.servers[i].started && s.servers[i].inside == {} && s.servers[i].held == map[]
  }

  lemma InitInv(s: State)
    requires Init(s)
    ensures Inv(s)
  {}

  // ---- every step of the writer keeps what is shared in order

  lemma {:induction false} GoneKeysOfConcat(gone: seq<Old>, o: Old)
    ensures GoneKeys(gone + [o]) == GoneKeys(gone) + {o.key}
    ensures DistinctKeys(gone) && o.key !in GoneKeys(gone) ==> DistinctKeys(gone + [o])
  {
    if gone == [] {
      assert [o][1..] == [];
    } else {
      GoneKeysOfConcat(gone[1..], o);
      assert (gone + [o])[1..] == gone[1..] + [o];
    }
  }

  lemma OpenStaticKeeps(s: State, step: Step)
    requires step.OpenStatic? && WriterEnabled(s, step) && SharedInv(s.shared)
    ensures SharedInv(WriterStep(s.shared, step))
  {}

  lemma OpenUpdatableKeeps(s: State, step: Step)
    requires step.OpenUpdatable? && WriterEnabled(s, step) && SharedInv(s.shared)
    ensures SharedInv(WriterStep(s.shared, step))
  {}

  lemma BeginMetricKeeps(s: State, step: Step)
    requires step.BeginMetric? && WriterEnabled(s, step) && SharedInv(s.shared)
    ensures SharedInv(WriterStep(s.shared, step))
  {}

  lemma FillKeeps(s: State, step: Step)
    requires step.Fill? && WriterEnabled(s, step) && SharedInv(s.shared)
    ensures SharedInv(WriterStep(s.shared, step))
  {}

  lemma FailKeeps(s: State, step: Step)
    requires step.Fail? && WriterEnabled(s, step) && SharedInv(s.shared)
    ensures SharedInv(WriterStep(s.shared, step))
  {}

  lemma TimeOutKeeps(s: State, step: Step)
    requires step.TimeOut? && WriterEnabled(s, step) && SharedInv(s.shared)
    ensures SharedInv(WriterStep(s.shared, step))
  {}

  lemma LockWriterKeeps(s: State, step: Step)
    requires step.LockWriter? && WriterEnabled(s, step) && SharedInv(s.shared)
    ensures SharedInv(WriterStep(s.shared, step))
  {}

  lemma SwapStaticKeepsKeys(s: State, step: Step)
    requires step.SwapStatic? && WriterEnabled(s, step) && SharedInv(s.shared)
    ensures var g' := WriterStep(s.shared, step);
            KeysOk(g'.inUse, RegisterKeys(g'.st, g'.up), FreshKeys(g'.writer), g'.gone, g'.leaked)
  {
    hide PublishedOk;
    var g := s.shared;
    var gone := Retired(g, g.st);
    if gone == [] {
      assert g.gone + gone == g.gone;
    } else {
      assert gone == [gone[0]];
      GoneKeysOfConcat(g.gone, gone[0]);
    }
  }

  lemma SwapStaticKeepsPublished(s: State, step: Step)
    requires step.SwapStatic? && WriterEnabled(s, step) && SharedInv(s.shared)
    ensures PublishedOk(WriterStep(s.shared, step))
  {
    hide KeysOk, BelongTogether, SegmentsOk;
  }

  lemma SwapStaticKeeps(s: State, step: Step)
    requires step.SwapStatic? && WriterEnabled(s, step) && SharedInv(s.shared)
    ensures SharedInv(WriterStep(s.shared, step))
  {
    SwapStaticKeepsKeys(s, step);
    SwapStaticKeepsPublished(s, step);
    hide KeysOk, PublishedOk;
  }

  lemma SwapUpdatableKeeps(s: State, step: Step)
    requires step.SwapUpdatable? && WriterEnabled(s, step) && SharedInv(s.shared)
    ensures SharedInv(WriterStep(s.shared, step))
  {
    var g := s.shared;
    var gone := Retired(g, g.up);
    if gone == [] {
      assert g.gone + gone == g.gone;
    } else {
      assert gone == [gone[0]];
      GoneKeysOfConcat(g.gone, gone[0]);
    }
  }

  lemma UnlockWriterKeeps(s: State, step: Step)
    requires step.UnlockWriter? && WriterEnabled(s, step) && SharedInv(s.shared)
    ensures SharedInv(WriterStep(s.shared, step))
  {}

  lemma NotifyKeeps(s: State, step: Step)
    requires step.Notify? && WriterEnabled(s, step) && SharedInv(s.shared)
    ensures SharedInv(WriterStep(s.shared, step))
  {}

  lemma RemoveOldKeeps(s: State, step: Step)
    requires step.RemoveOld? && WriterEnabled(s, step) && SharedInv(s.shared)
    ensures SharedInv(WriterStep(s.shared, step))
  {}

  lemma ReleaseOldKeeps(s: State, step: Step)
    requires step.ReleaseOld? && WriterEnabled(s, step) && SharedInv(s.shared)
    ensures SharedInv(WriterStep(s.shared, step))
  {}

  lemma FinishKeeps(s: State, step: Step)
    requires step.Finish? && WriterEnabled(s, step) && SharedInv(s.shared)
    ensures SharedInv(WriterStep(s.shared, step))
  {}

  // ---- every step of the writer keeps the servers in order

  /** No key in use changes its meaning. */
  ghost predicate KeysStay(inUse: set<nat>, named: map<nat, nat>, gone: seq<Old>,
                           inUse': set<nat>, named': map<nat, nat>, gone': seq<Old>) {
    && inUse <= inUse'
    && (forall k :: k in named' && k in inUse ==> k in named && named'[k] == named[k])
    && (forall j :: 0 <= j < |gone'| ==>
        gone'[j] in gone || (gone'[j].key in named && gone'[j].id == named[gone'[j].key]))
  }

  lemma FacadesKept(g: Shared, g': Shared, sv: Server)
    requires FacadesOk(g.published, g.inUse, g.named, g.gone, sv.started, sv.facade, sv.held)
    requires g.published <= g'.published
    requires KeysStay(g.inUse, g.named, g.gone, g'.inUse, g'.named, g'.gone)
    ensures FacadesOk(g'.published, g'.inUse, g'.named, g'.gone, sv.started, sv.facade, sv.held)
  {}

  /** A released key belongs to no facade that is still attached. */
  lemma FacadesKeptOnRelease(g: Shared, sv: Server)
    requires FacadesOk(g.published, g.inUse, g.named, g.gone, sv.started, sv.facade, sv.held)
    requires g.gone != [] && !AttachedBy(sv, g.gone[0].id)
    ensures FacadesOk(g.published, g.inUse - {g.gone[0].key}, g.named, g.gone[1..], sv.started, sv.facade, sv.held)
  {}

  lemma OpenStaticKeepsKeys(s: State, step: Step)
    requires step.OpenStatic? && WriterEnabled(s, step) && SharedInv(s.shared)
    ensures var g, g' := s.shared, WriterStep(s.shared, step);
            KeysStay(g.inUse, g.named, g.gone, g'.inUse, g'.named, g'.gone)
  {
    hide FreshOk, PublishedOk, RegisterOk;
  }

  lemma OpenStaticKeepsServer(s: State, step: Step, i: nat)
    requires step.OpenStatic? && WriterEnabled(s, step) && SharedInv(s.shared)
    requires i < |s.servers| && ServerInv(s.shared, s.servers[i], i)
    ensures ServerInv(WriterStep(s.shared, step), s.servers[i], i)
  {
    var g, g' := s.shared, WriterStep(s.shared, step);
    OpenStaticKeepsKeys(s, step);
    hide KeysOk, FacadesOk, PublishedOk, FreshOk, KeysStay;
    FacadesKept(g, g', s.servers[i]);
  }

  lemma OpenUpdatableKeepsKeys(s: State, step: Step)
    requires step.OpenUpdatable? && WriterEnabled(s, step) && SharedInv(s.shared)
    ensures var g, g' := s.shared, WriterStep(s.shared, step);
            KeysStay(g.inUse, g.named, g.gone, g'.inUse, g'.named, g'.gone)
  {
    hide FreshOk, PublishedOk, RegisterOk;
  }

  lemma OpenUpdatableKeepsServer(s: State, step: Step, i: nat)
    requires step.OpenUpdatable? && WriterEnabled(s, step) && SharedInv(s.shared)
    requires i < |s.servers| && ServerInv(s.shared, s.servers[i], i)
    ensures ServerInv(WriterStep(s.shared, step), s.servers[i], i)
  {
    var g, g' := s.shared, WriterStep(s.shared, step);
    OpenUpdatableKeepsKeys(s, step);
    hide KeysOk, FacadesOk, PublishedOk, FreshOk, KeysStay;
    FacadesKept(g, g', s.servers[i]);
  }

  lemma BeginMetricKeepsServer(s: State, step: Step, i: nat)
    requires step.BeginMetric? && WriterEnabled(s, step) && SharedInv(s.shared)
    requires i < |s.servers| && ServerInv(s.shared, s.servers[i], i)
    ensures ServerInv(WriterStep(s.shared, step), s.servers[i], i)
  {
    var g, g' := s.shared, WriterStep(s.shared, step);
    assert KeysStay(g.inUse, g.named, g.gone, g'.inUse, g'.named, g'.gone);
    hide KeysOk, FacadesOk, PublishedOk, FreshOk, KeysStay;
    FacadesKept(g, g', s.servers[i]);
  }

  lemma FillKeepsServer(s: State, step: Step, i: nat)
    requires step.Fill? && WriterEnabled(s, step) && SharedInv(s.shared)
    requires i < |s.servers| && ServerInv(s.shared, s.servers[i], i)
    ensures ServerInv(WriterStep(s.shared, step), s.servers[i], i)
  {
    hide KeysOk, FacadesOk, PublishedOk, FreshOk, RegisterOk, SegmentsOk;
  }

  lemma FailKeepsKeys(s: State, step: Step)
    requires step.Fail? && WriterEnabled(s, step) && SharedInv(s.shared)
    ensures var g, g' := s.shared, WriterStep(s.shared, step);
            KeysStay(g.inUse, g.named, g.gone, g'.inUse, g'.named, g'.gone)
  {
    hide PublishedOk, RegisterOk;
  }

  lemma FailKeepsServer(s: State, step: Step, i: nat)
    requires step.Fail? && WriterEnabled(s, step) && SharedInv(s.shared)
    requires i < |s.servers| && ServerInv(s.shared, s.servers[i], i)
    ensures ServerInv(WriterStep(s.shared, step), s.servers[i], i)
  {
    var g, g' := s.shared, WriterStep(s.shared, step);
    FailKeepsKeys(s, step);
    hide KeysOk, FacadesOk, PublishedOk, FreshOk, KeysStay;
    FacadesKept(g, g', s.servers[i]);
  }

  lemma TimeOutKeepsKeys(s: State, step: Step)
    requires step.TimeOut? && WriterEnabled(s, step) && SharedInv(s.shared)
    ensures var g, g' := s.shared, WriterStep(s.shared, step);
            KeysStay(g.inUse, g.named, g.gone, g'.inUse, g'.named, g'.gone)
  {
    hide PublishedOk, RegisterOk;
  }

  lemma TimeOutKeepsServer(s: State, step: Step, i: nat)
    requires step.TimeOut? && WriterEnabled(s, step) && SharedInv(s.shared)
    requires i < |s.servers| && ServerInv(s.shared, s.servers[i], i)
    ensures ServerInv(WriterStep(s.shared, step), s.servers[i], i)
  {
    var g, g' := s.shared, WriterStep(s.shared, step);
    TimeOutKeepsKeys(s, step);
    hide KeysOk, FacadesOk, PublishedOk, FreshOk, KeysStay;
    FacadesKept(g, g', s.servers[i]);
  }

  lemma LockWriterKeepsServer(s: State, step: Step, i: nat)
    requires step.LockWriter? && WriterEnabled(s, step) && SharedInv(s.shared)
    requires i < |s.servers| && ServerInv(s.shared, s.servers[i], i)
    ensures ServerInv(WriterStep(s.shared, step), s.servers[i], i)
  {
    hide KeysOk, FacadesOk, PublishedOk, FreshOk, RegisterOk, SegmentsOk;
  }

  lemma SwapStaticKeepsServer(s: State, step: Step, i: nat)
    requires step.SwapStatic? && WriterEnabled(s, step) && SharedInv(s.shared)
    requires i < |s.servers| && ServerInv(s.shared, s.servers[i], i)
    ensures ServerInv(WriterStep(s.shared, step), s.servers[i], i)
  {
    var g, g' := s.shared, WriterStep(s.shared, step);
    assert KeysStay(g.inUse, g.named, g.gone, g'.inUse, g'.named, g'.gone);
    hide KeysOk, FacadesOk, PublishedOk, FreshOk, KeysStay;
    FacadesKept(g, g', s.servers[i]);
  }

  lemma SwapUpdatableKeepsServer(s: State, step: Step, i: nat)
    requires step.SwapUpdatable? && WriterEnabled(s, step) && SharedInv(s.shared)
    requires i < |s.servers| && ServerInv(s.shared, s.servers[i], i)
    ensures ServerInv(WriterStep(s.shared, step), s.servers[i], i)
  {
    var g, g' := s.shared, WriterStep(s.shared, step);
    assert KeysStay(g.inUse, g.named, g.gone, g'.inUse, g'.named, g'.gone);
    hide KeysOk, FacadesOk, PublishedOk, FreshOk, KeysStay;
    FacadesKept(g, g', s.servers[i]);
  }

  lemma UnlockWriterKeepsServer(s: State, step: Step, i: nat)
    requires step.UnlockWriter? && WriterEnabled(s, step) && SharedInv(s.shared)
    requires i < |s.servers| && ServerInv(s.shared, s.servers[i], i)
    ensures ServerInv(WriterStep(s.shared, step), s.servers[i], i)
  {
    var g, g' := s.shared, WriterStep(s.shared, step);
    assert KeysStay(g.inUse, g.named, g.gone, g'.inUse, g'.named, g'.gone);
    hide KeysOk, FacadesOk, PublishedOk, FreshOk, KeysStay;
    FacadesKept(g, g', s.servers[i]);
  }

  lemma NotifyKeepsServer(s: State, step: Step, i: nat)
    requires step.Notify? && WriterEnabled(s, step) && SharedInv(s.shared)
    requires i < |s.servers| && ServerInv(s.shared, s.servers[i], i)
    ensures ServerInv(WriterStep(s.shared, step), s.servers[i].(posted := true), i)
  {
    hide KeysOk, PublishedOk, FreshOk, RegisterOk, SegmentsOk, FacadesOk;
  }

  lemma RemoveOldKeepsServer(s: State, step: Step, i: nat)
    requires step.RemoveOld? && WriterEnabled(s, step) && SharedInv(s.shared)
    requires i < |s.servers| && ServerInv(s.shared, s.servers[i], i)
    ensures ServerInv(WriterStep(s.shared, step), s.servers[i], i)
  {
    var g, g' := s.shared, WriterStep(s.shared, step);
    assert KeysStay(g.inUse, g.named, g.gone, g'.inUse, g'.named, g'.gone);
    hide KeysOk, FacadesOk, PublishedOk, FreshOk, KeysStay;
    FacadesKept(g, g', s.servers[i]);
  }

  lemma ReleaseOldKeepsServer(s: State, step: Step, i: nat)
    requires step.ReleaseOld? && WriterEnabled(s, step) && SharedInv(s.shared)
    requires i < |s.servers| && ServerInv(s.shared, s.servers[i], i)
    ensures ServerInv(WriterStep(s.shared, step), s.servers[i], i)
  {
    assert !AttachedBy(s.servers[i], s.shared.gone[0].id);
    hide KeysOk, FacadesOk, PublishedOk, FreshOk, AttachedBy, AttachedAnywhere;
    FacadesKeptOnRelease(s.shared, s.servers[i]);
  }

  lemma FinishKeepsServer(s: State, step: Step, i: nat)
    requires step.Finish? && WriterEnabled(s, step) && SharedInv(s.shared)
    requires i < |s.servers| && ServerInv(s.shared, s.servers[i], i)
    ensures ServerInv(WriterStep(s.shared, step), s.servers[i], i)
  {
    hide KeysOk, FacadesOk, PublishedOk, FreshOk, RegisterOk, SegmentsOk;
  }

  // ---- every step of a server keeps the invariant

  lemma ServerStepKeepsShared(g: Shared, sv: Server, step: Step, i: nat)
    requires OfServer(step) && step.i == i && ServerEnabled(g, sv, step) && SharedInv(g) && ServerInv(g, sv, i)
    ensures SharedInv(g.(owner := OwnerAfter(g, step)))
  {
    hide KeysOk, FacadesOk;
  }

  lemma ServerStepKeepsOther(g: Shared, sv: Server, step: Step, other: Server, j: nat)
    requires OfServer(step) && step.i != j && ServerEnabled(g, sv, step) && ServerInv(g, sv, step.i)
    requires ServerInv(g, other, j)
    ensures ServerInv(g.(owner := OwnerAfter(g, step)), other, j)
  {
    hide FacadesOk;
  }

  lemma {:induction false} KeyIsGone(gone: seq<Old>, j: nat)
    requires j < |gone|
    ensures gone[j].key in GoneKeys(gone)
  {
    if j > 0 { KeyIsGone(gone[1..], j - 1); }
  }

  /** What the register holds may be attached: its keys are named and stand for what is published last. */
  lemma CurrentPairIsFacade(g: Shared)
    requires SharedInv(g) && Registered(g) && !g.writer.Swapping?
    ensures g.st.key in g.named && g.up.key in g.named && g.published != []
    ensures FacadeOk(g.published, g.inUse, g.named, g.gone, Facade(|g.published| - 1, CurrentPair(g)))
  {
    forall j | 0 <= j < |g.gone| ensures g.gone[j].key != g.st.key && g.gone[j].key != g.up.key {
      KeyIsGone(g.gone, j);
      assert g.st.key in RegisterKeys(g.st, g.up) && g.up.key in RegisterKeys(g.st, g.up);
    }
  }

  lemma InstallKeeps(g: Shared, sv: Server, step: Step, i: nat)
    requires step.Install? && step.i == i && ServerEnabled(g, sv, step) && SharedInv(g) && ServerInv(g, sv, i)
    ensures ServerInv(g, ServerStep(g, sv, step), i)
  {
    CurrentPairIsFacade(g);
    hide KeysOk, FreshOk, PublishedOk, RegisterOk, SegmentsOk;
  }

  /** A watcher that finds a timestamp unchanged holds the very region that is in the register. */
  lemma SameStampSameRegion(g: Shared, sv: Server)
    requires PublishedOk(g) && !g.writer.Swapping?
    requires FacadesOk(g.published, g.inUse, g.named, g.gone, sv.started, sv.facade, sv.held) && sv.started
    ensures Registered(g)
    ensures sv.facade.pair.st.timestamp == g.st.timestamp ==> sv.facade.pair.st == g.st
    ensures sv.facade.pair.up.timestamp == g.up.timestamp ==> sv.facade.pair.up == g.up
  {
    assert NotAfter(g.published[sv.facade.at], CurrentPair(g));
  }

  lemma ReaderStepKeeps(g: Shared, sv: Server, step: Step, i: nat)
    requires (step.GetBegin? || step.GetEnd? || step.Drop?) && step.i == i && ServerEnabled(g, sv, step)
    requires ServerInv(g, sv, i)
    ensures ServerInv(g, ServerStep(g, sv, step), i)
  {
    hide FacadeOk;
  }

  lemma WatcherStepKeeps(g: Shared, sv: Server, step: Step, i: nat)
    requires OfServer(step) && !step.GetBegin? && !step.GetEnd? && !step.Drop? && !step.Install?
    requires step.i == i && ServerEnabled(g, sv, step) && SharedInv(g) && ServerInv(g, sv, i)
    ensures ServerInv(g.(owner := OwnerAfter(g, step)), ServerStep(g, sv, step), i)
  {
    hide KeysOk, FreshOk, PublishedOk, RegisterOk, SegmentsOk, FacadesOk;
    if step.CopyStatic? || step.CopyUpdatable? {
      hide ServerInv, SharedInv;
      CopyKeeps(g, sv, step, i);
    }
  }

  lemma CopyKeeps(g: Shared, sv: Server, step: Step, i: nat)
    requires (step.CopyStatic? || step.CopyUpdatable?) && step.i == i
    requires ServerEnabled(g, sv, step) && SharedInv(g) && ServerInv(g, sv, i)
    ensures ServerInv(g.(owner := OwnerAfter(g, step)), ServerStep(g, sv, step), i)
  {
    SameStampSameRegion(g, sv);
    hide KeysOk, FreshOk, PublishedOk, RegisterOk, SegmentsOk, FacadesOk;
  }

  lemma ServerStepKeepsOwn(g: Shared, sv: Server, step: Step, i: nat)
    requires OfServer(step) && step.i == i && ServerEnabled(g, sv, step) && SharedInv(g) && ServerInv(g, sv, i)
    ensures ServerInv(g.(owner := OwnerAfter(g, step)), ServerStep(g, sv, step), i)
  {
    hide ServerInv, SharedInv;
    if step.Install? {
      InstallKeeps(g, sv, step, i);
    } else if step.GetBegin? || step.GetEnd? || step.Drop? {
      ReaderStepKeeps(g, sv, step, i);
    } else {
      WatcherStepKeeps(g, sv, step, i);
    }
  }

  lemma WriterStepKeepsShared(s: State, step: Step)
    requires !OfServer(step) && WriterEnabled(s, step) && SharedInv(s.shared)
    ensures SharedInv(WriterStep(s.shared, step))
  {
    hide SharedInv, WriterEnabled, WriterStep;
    match step {
      case OpenStatic(_) => OpenStaticKeeps(s, step);
      case OpenUpdatable(_) => OpenUpdatableKeeps(s, step);
      case BeginMetric(_) => BeginMetricKeeps(s, step);
      case Fill(_, _) => FillKeeps(s, step);
      case Fail(_) => FailKeeps(s, step);
      case TimeOut => TimeOutKeeps(s, step);
      case LockWriter => LockWriterKeeps(s, step);
      case SwapStatic => SwapStaticKeeps(s, step);
      case SwapUpdatable => SwapUpdatableKeeps(s, step);
      case UnlockWriter => UnlockWriterKeeps(s, step);
      case Notify => NotifyKeeps(s, step);
      case RemoveOld => RemoveOldKeeps(s, step);
      case ReleaseOld => ReleaseOldKeeps(s, step);
      case Finish => FinishKeeps(s, step);
    }
  }

  lemma WriterStepKeepsServer(s: State, step: Step, i: nat)
    requires !OfServer(step) && WriterEnabled(s, step) && SharedInv(s.shared) && i < |s.servers|
    requires ServerInv(s.shared, s.servers[i], i)
    ensures ServerInv(WriterStep(s.shared, step), if step.Notify? then s.servers[i].(posted := true)
            else s.servers[i], i)
  {
    hide SharedInv, ServerInv, WriterEnabled, WriterStep;
    match step {
      case OpenStatic(_) => OpenStaticKeepsServer(s, step, i);
      case OpenUpdatable(_) => OpenUpdatableKeepsServer(s, step, i);
      case BeginMetric(_) => BeginMetricKeepsServer(s, step, i);
      case Fill(_, _) => FillKeepsServer(s, step, i);
      case Fail(_) => FailKeepsServer(s, step, i);
      case TimeOut => TimeOutKeepsServer(s, step, i);
      case LockWriter => LockWriterKeepsServer(s, step, i);
      case SwapStatic => SwapStaticKeepsServer(s, step, i);
      case SwapUpdatable => SwapUpdatableKeepsServer(s, step, i);
      case UnlockWriter => UnlockWriterKeepsServer(s, step, i);
      case Notify => NotifyKeepsServer(s, step, i);
      case RemoveOld => RemoveOldKeepsServer(s, step, i);
      case ReleaseOld => ReleaseOldKeepsServer(s, step, i);
      case Finish => FinishKeepsServer(s, step, i);
    }
  }

  /** Every step of anybody keeps the invariant. */
  lemma StepKeepsInv(s: State, step: Step)
    requires Inv(s) && Enabled(s, step)
    ensures Inv(Apply(s, step))
  {
    var s' := Apply(s, step);
    if OfServer(step) {
      var i := step.i;
      ServerStepKeepsShared(s.shared, s.servers[i], step, i);
      ServerStepKeepsOwn(s.shared, s.servers[i], step, i);
      hide ServerInv, SharedInv, ServerEnabled, ServerStep;
      forall j | 0 <= j < |s'.servers| ensures ServerInv(s'.shared, s'.servers[j], j) {
        if j != i { ServerStepKeepsOther(s.shared, s.servers[i], step, s.servers[j], j); }
      }
    } else {
      WriterStepKeepsShared(s, step);
      OwnerStays(s, step);
      hide ServerInv, SharedInv, WriterEnabled, WriterStep;
      forall j | 0 <= j < |s'.servers|
        ensures ServerInv(s'.shared, s'.servers[j], j)
      {
        WriterStepKeepsServer(s, step, j);
      }
    }
  }

  /** The writer never takes the region mutex from a server. */
  lemma OwnerStays(s: State, step: Step)
    requires WriterEnabled(s, step) && SharedInv(s.shared)
    ensures WriterStep(s.shared, step).owner.TheServer? ==> WriterStep(s.shared, step).owner == s.shared.owner
  {
    hide KeysOk, FreshOk, PublishedOk, RegisterOk, SegmentsOk;
  }

  // ---- runs

  /** From `s` the steps, each enabled when it is taken, lead to `s'`. */
  ghost predicate Leads(s: State, steps: seq<Step>, s': State)
    decreases |steps|
  {
    if steps == [] then s' == s else Enabled(s, steps[0]) && Leads(Apply(s, steps[0]), steps[1..], s')
  }

  ghost predicate Reachable(s: State) {
    exists s0, steps :: Init(s0) && Leads(s0, steps, s)
  }

  lemma {:induction false} RunsKeepInv(s: State, steps: seq<Step>, s': State)
    requires Inv(s) && Leads(s, steps, s')
    ensures Inv(s')
    decreases |steps|
  {
    if steps != [] {
      StepKeepsInv(s, steps[0]);
      RunsKeepInv(Apply(s, steps[0]), steps[1..], s');
    }
  }

  lemma ReachableInv(s: State)
    requires Reachable(s)
    ensures Inv(s)
  {
    var s0, steps :| Init(s0) && Leads(s0, steps, s);
    InitInv(s0);
    RunsKeepInv(s0, steps, s);
  }

  // ---- what follows for every run

  /**
   * What a reader was handed is a pair that was in the register at one moment the lock was free;
   * its data belong together, and its keys still stand for its segments or for nothing.
   */
  lemma ReadersHoldPublishedPairs(s: State, i: nat, r: nat)
    requires Reachable(s) && i < |s.servers| && r in s.servers[i].held
    ensures var f, g := s.servers[i].held[r], s.shared;
            && f.at < |g.published| && f.pair == g.published[f.at] && BelongTogether(g.segments, f.pair)
            && f.pair.st.key in g.inUse && (f.pair.st.key in g.named ==> g.named[f.pair.st.key] == f.pair.stId)
            && f.pair.up.key in g.inUse && (f.pair.up.key in g.named ==> g.named[f.pair.up.key] == f.pair.upId)
  {
    ReachableInv(s);
    hide KeysOk, FreshOk, RegisterOk, SegmentsOk, NotAfter, CopiesOk;
    assert ServerInv(s.shared, s.servers[i], i);
    assert FacadeOk(s.shared.published, s.shared.inUse, s.shared.named, s.shared.gone, s.servers[i].held[r]);
  }

  /** The same of what a factory serves to the next reader. */
  lemma FactoriesServePublishedPairs(s: State, i: nat)
    requires Reachable(s) && i < |s.servers| && s.servers[i].started
    ensures var f, g := s.servers[i].facade, s.shared;
            f.at < |g.published| && f.pair == g.published[f.at] && BelongTogether(g.segments, f.pair)
  {
    ReachableInv(s);
    hide KeysOk, FreshOk, RegisterOk, SegmentsOk, NotAfter, CopiesOk;
    assert ServerInv(s.shared, s.servers[i], i);
  }

  /** One step forgets nothing that was published and changes none of its data. */
  ghost predicate Onward(s: State, s': State) {
    && |s.servers| == |s'.servers| && s.shared.published <= s'.shared.published
    && SegmentsStay(s.shared.segments, s'.shared.segments)
    && s.shared.leaked <= s'.shared.leaked
    && forall i :: 0 <= i < |s.servers| && s.servers[i].started ==> FactoryNotBack(s.servers[i], s'.servers[i])
  }

  ghost predicate SegmentsStay(before: seq<Segment>, after: seq<Segment>) {
    |before| <= |after| && forall x :: 0 <= x < |before| && before[x].filled ==> after[x] == before[x]
  }

  ghost predicate FactoryNotBack(before: Server, after: Server) {
    after.started && before.facade.at <= after.facade.at
  }

  lemma WriterStepOnward(s: State, step: Step)
    requires !OfServer(step) && WriterEnabled(s, step) && SharedInv(s.shared)
    ensures var g' := WriterStep(s.shared, step);
            s.shared.published <= g'.published && s.shared.leaked <= g'.leaked
                && SegmentsStay(s.shared.segments, g'.segments)
  {
    hide KeysOk, PublishedOk, RegisterOk;
  }

  lemma StepIsOnward(s: State, step: Step)
    requires Inv(s) && Enabled(s, step)
    ensures Onward(s, Apply(s, step))
  {
    if OfServer(step) {
      var i := step.i;
      assert ServerInv(s.shared, s.servers[i], i);
      hide SharedInv, KeyKept;
    } else {
      WriterStepOnward(s, step);
      hide SharedInv, ServerInv, WriterStep, WriterEnabled;
    }
  }

  lemma OnwardTransitive(a: State, b: State, c: State)
    requires Onward(a, b) && Onward(b, c)
    ensures Onward(a, c)
  {
    forall i | 0 <= i < |a.servers| && a.servers[i].started ensures FactoryNotBack(a.servers[i], c.servers[i]) {
      assert FactoryNotBack(a.servers[i], b.servers[i]) && FactoryNotBack(b.servers[i], c.servers[i]);
    }
  }

  lemma {:induction false} RunsAreOnward(s: State, steps: seq<Step>, s': State)
    requires Inv(s) && Leads(s, steps, s')
    ensures Onward(s, s')
    decreases |steps|
  {
    if steps != [] {
      var next := Apply(s, steps[0]);
      StepKeepsInv(s, steps[0]);
      StepIsOnward(s, steps[0]);
      RunsAreOnward(next, steps[1..], s');
      OnwardTransitive(s, next, s');
    }
  }

  /** Over any run, timestamps a server has installed never go back, and an equal timestamp is the same region. */
  lemma InstalledNeverGoesBack(s: State, steps: seq<Step>, s': State, i: nat)
    requires Reachable(s) && Leads(s, steps, s') && i < |s.servers| && s.servers[i].started
    ensures i < |s'.servers| && s'.servers[i].started && NotAfter(s.servers[i].facade.pair, s'.servers[i].facade.pair)
  {
    ReachableInv(s);
    RunsKeepInv(s, steps, s');
    RunsAreOnward(s, steps, s');
    assert FactoryNotBack(s.servers[i], s'.servers[i]);
    hide KeysOk, FreshOk, RegisterOk, SegmentsOk, NotAfter, CopiesOk, BelongTogether, KeyKept;
    assert ServerInv(s.shared, s.servers[i], i) && ServerInv(s'.shared, s'.servers[i], i);
    var a, b := s.servers[i].facade.at, s'.servers[i].facade.at;
    assert s'.shared.published[a] == s.shared.published[a];
  }

  /** A reader that keeps its facade keeps reading the same data, whatever anybody does meanwhile. */
  lemma HeldDataStay(s: State, steps: seq<Step>, s': State, i: nat, r: nat)
    requires Reachable(s) && Leads(s, steps, s') && i < |s.servers| && r in s.servers[i].held
    ensures var p := s.servers[i].held[r].pair;
            && p.stId < |s.shared.segments| <= |s'.shared.segments| && p.upId < |s.shared.segments|
            && s'.shared.segments[p.stId] == s.shared.segments[p.stId]
            && s'.shared.segments[p.upId] == s.shared.segments[p.upId]
  {
    ReachableInv(s);
    ReadersHoldPublishedPairs(s, i, r);
    RunsAreOnward(s, steps, s');
  }

  /** The writer gives up: a load fails after a key was reserved for it, or its swap times out. */
  predicate GivesUp(step: Step) { step.Fail? || step.TimeOut? }

  /** Somewhere on the way the writer gave up while the key was reserved and not yet in the register. */
  ghost predicate GivenUpWith(s: State, steps: seq<Step>, k: nat)
    decreases |steps|
  {
    && steps != [] && Enabled(s, steps[0])
    && ((GivesUp(steps[0]) && k in FreshKeys(s.shared.writer)) || GivenUpWith(Apply(s, steps[0]), steps[1..], k))
  }

  lemma LeakedByStep(s: State, step: Step, k: nat)
    requires Enabled(s, step)
    ensures k in Apply(s, step).shared.leaked <==>
            k in s.shared.leaked || (GivesUp(step) && k in FreshKeys(s.shared.writer))
  {}

  lemma {:induction false} LeakedByRun(s: State, steps: seq<Step>, s': State, k: nat)
    requires Leads(s, steps, s')
    ensures k in s'.shared.leaked <==> k in s.shared.leaked || GivenUpWith(s, steps, k)
    decreases |steps|
  {
    hide WriterEnabled, ServerEnabled, WriterStep, ServerStep, Posted;
    if steps != [] {
      LeakedByStep(s, steps[0], k);
      LeakedByRun(Apply(s, steps[0]), steps[1..], s', k);
    }
  }

  /**
   * Which keys are never given back: between two loads, a key is in use without being in the
   * register if and only if a load that had reserved it failed or its swap timed out.
   */
  lemma KeyIsLostIff(s0: State, steps: seq<Step>, s: State, k: nat)
    requires Init(s0) && Leads(s0, steps, s) && s.shared.writer.Idle?
    ensures k in s.shared.inUse && k !in RegisterKeys(s.shared.st, s.shared.up) <==> GivenUpWith(s0, steps, k)
  {
    InitInv(s0);
    RunsKeepInv(s0, steps, s);
    LeakedByRun(s0, steps, s, k);
    var g := s.shared;
    hide Init, Leads, GivenUpWith;
    assert KeysOk(g.inUse, RegisterKeys(g.st, g.up), FreshKeys(g.writer), g.gone, g.leaked) && g.gone == [];
  }

  /** A lost key stays in use for good, whatever happens later, and never gets into the register. */
  lemma LostKeysStayInUse(s0: State, steps: seq<Step>, s: State, more: seq<Step>, s': State, k: nat)
    requires Init(s0) && Leads(s0, steps, s) && GivenUpWith(s0, steps, k) && Leads(s, more, s')
    ensures k in s'.shared.inUse && k !in RegisterKeys(s'.shared.st, s'.shared.up)
  {
    InitInv(s0);
    RunsKeepInv(s0, steps, s);
    RunsKeepInv(s, more, s');
    RunsAreOnward(s, more, s');
    LeakedByRun(s0, steps, s, k);
    hide Init, Leads, GivenUpWith;
    var g := s'.shared;
    assert KeysOk(g.inUse, RegisterKeys(g.st, g.up), FreshKeys(g.writer), g.gone, g.leaked);
  }

  /** Whenever a factory is about to attach the copied keys, both segments are there. */
  lemma AttachFindsItsSegments(s: State, i: nat)
    requires Reachable(s) && i < |s.servers| && s.servers[i].phase == SwapLocked
    ensures Enabled(s, Install(i))
  {
    ReachableInv(s);
    assert ServerInv(s.shared, s.servers[i], i);
    CurrentPairIsFacade(s.shared);
  }

  /** A watcher asleep without a wake-up call has seen the current register, or the writer is yet to notify. */
  lemma NoLostWakeUp(s: State, i: nat)
    requires Reachable(s) && i < |s.servers| && s.servers[i].phase == Waiting && !s.servers[i].posted
    ensures UpToDate(s.shared, s.servers[i]) || s.shared.writer.Swapping? || s.shared.writer.Unlocked?
  {
    ReachableInv(s);
    assert ServerInv(s.shared, s.servers[i], i);
  }

  // ---- locks

  predicate HoldsFactory(sv: Server) { sv.phase == SwapLocked || sv.phase == Installed }

  /** A step that takes the region mutex. */
  predicate TakesRegion(step: Step) {
    step.LockWriter? || step.Notify? || step.Construct? || step.Lock? || step.Wake?
  }

  /** The factory mutex is always taken last: whoever holds it takes no other lock until it has given it back. */
  lemma FactoryLockIsInner(s: State, step: Step)
    requires Reachable(s) && Enabled(s, step) && OfServer(step) && HoldsFactory(s.servers[step.i])
    ensures !TakesRegion(step) && !step.LockFactory?
    ensures s.shared.owner == TheServer(step.i)
  {
    ReachableInv(s);
    assert ServerInv(s.shared, s.servers[step.i], step.i);
  }

  /** While a reader is inside `Get`, no step changes the factory it reads. */
  lemma FactoryStableWhileInside(s: State, step: Step, i: nat, r: nat)
    requires Reachable(s) && Enabled(s, step) && i < |s.servers| && r in s.servers[i].inside
    ensures Apply(s, step).servers[i].facade == s.servers[i].facade
  {
    ReachableInv(s);
    assert ServerInv(s.shared, s.servers[i], i);
    hide SharedInv, FacadesOk, CopiesOk, WriterEnabled, WriterStep;
  }

  /** A step towards giving the region mutex back. */
  ghost function MoveOf(g: Shared, sv: Server, i: nat): Step {
    match sv.phase
    case Locked => if UpToDate(g, sv) then Wait(i) else CopyStatic(i)
    case CopiedStatic => CopyUpdatable(i)
    case Copied => if sv.inside == {} then LockFactory(i) else var r :| r in sv.inside; GetEnd(i, r)
    case SwapLocked => Install(i)
    case Installed => UnlockFactory(i)
    case _ => Unlock(i)
  }

  lemma MoveIsEnabled(g: Shared, sv: Server, i: nat)
    requires HoldsRegion(sv.phase) && (sv.phase == SwapLocked ==> sv.stCopy.key in g.named && sv.upCopy.key in g.named)
    ensures var step := MoveOf(g, sv, i);
            OfServer(step) && step.i == i && ServerEnabled(g, sv, step) && !TakesRegion(step)
  {}

  /** The next step of whoever holds the region mutex; while readers are inside the factory, that of one of them. */
  ghost function HolderMove(s: State): Step
    requires s.shared.owner.TheServer? ==> s.shared.owner.i < |s.servers|
  {
    var g := s.shared;
    match g.owner
    case TheServer(i) => MoveOf(g, s.servers[i], i)
    case _ => if g.writer.Swapping? && g.writer.done == 0 then SwapStatic
              else if g.writer.Swapping? && g.writer.done == 1 then SwapUpdatable else UnlockWriter
  }

  /** A step of the holder itself, or the end of a `Get` the holder waits for; never a new reader. */
  predicate OfHolder(owner: Owner, step: Step) {
    match owner
    case Nobody => false
    case TheWriter => step.SwapStatic? || step.SwapUpdatable? || step.UnlockWriter?
    case TheServer(i) => OfServer(step) && step.i == i && !step.GetBegin? && !step.Drop? && !TakesRegion(step)
  }

  /** How many steps the holder is away from giving the mutex back. */
  ghost function StepsLeft(s: State): nat {
    var g := s.shared;
    match g.owner
    case Nobody => 0
    case TheWriter => if g.writer.Swapping? && g.writer.done <= 2 then 3 - g.writer.done else 0
    case TheServer(i) => if i < |s.servers| then PhaseRank(s.servers[i].phase) + |s.servers[i].inside| else 0
  }

  function PhaseRank(phase: Phase): nat {
    match phase
    case Locked => 6
    case CopiedStatic => 5
    case Copied => 4
    case SwapLocked => 3
    case Installed => 2
    case Leaving => 1
    case _ => 0
  }

  /** The step `step` of the holder is possible and brings it closer to giving the mutex back. */
  ghost predicate Advances(s: State, step: Step) {
    && OfHolder(s.shared.owner, step) && Enabled(s, step) && StepsLeft(s) > 0
    && var s' := Apply(s, step);
       s'.shared.owner == Nobody || (s'.shared.owner == s.shared.owner && StepsLeft(s') < StepsLeft(s))
  }

  /** The next move of a server that holds the mutex gives it back, or comes closer to it. */
  lemma MoveIsProgress(g: Shared, sv: Server, i: nat)
    requires HoldsRegion(sv.phase) && g.owner == TheServer(i)
    ensures var step := MoveOf(g, sv, i);
            OfServer(step) && OfHolder(g.owner, step) &&
            (OwnerAfter(g, step) == Nobody || (OwnerAfter(g, step) == g.owner && var next := ServerStep(g, sv, step);
             PhaseRank(next.phase) + |next.inside| < PhaseRank(sv.phase) + |sv.inside|))
  {
    if sv.phase == Copied && sv.inside != {} {
      var step := MoveOf(g, sv, i);
      assert step.GetEnd? && step.r in sv.inside;
      assert |sv.inside - {step.r}| < |sv.inside|;
    } else {
      assert !MoveOf(g, sv, i).GetEnd?;
    }
  }

  lemma ServerAdvances(s: State, i: nat)
    requires Reachable(s) && i < |s.servers| && s.shared.owner == TheServer(i)
    ensures Advances(s, MoveOf(s.shared, s.servers[i], i))
  {
    var g, sv := s.shared, s.servers[i];
    assert HoldsRegion(sv.phase) by {
      ReachableInv(s);
      assert ServerInv(g, sv, i);
    }
    if sv.phase == SwapLocked { AttachFindsItsSegments(s, i); }
    hide Reachable, MoveOf, OwnerAfter, ServerStep, ServerEnabled;
    MoveIsEnabled(g, sv, i);
    MoveIsProgress(g, sv, i);
    hide PhaseRank, HoldsRegion;
  }

  lemma WriterAdvances(s: State)
    requires Reachable(s) && s.shared.owner == TheWriter
    ensures Advances(s, HolderMove(s))
  {
    assert s.shared.writer.Swapping? && s.shared.writer.done <= 2 by {
      ReachableInv(s);
      assert FreshOk(s.shared);
    }
    hide Reachable;
  }

  /** No deadlock: whoever holds the region mutex can go on, or waits for a reader inside the factory that can. */
  lemma HolderCanMove(s: State)
    requires Reachable(s) && s.shared.owner != Nobody
    ensures s.shared.owner.TheServer? ==> s.shared.owner.i < |s.servers|
    ensures Advances(s, HolderMove(s))
  {
    ReachableInv(s);
    hide Reachable, Advances;
    if s.shared.owner == TheWriter {
      WriterAdvances(s);
    } else {
      ServerAdvances(s, s.shared.owner.i);
    }
  }

  /** From every reachable state, steps of the holder and of readers inside its factory alone free the mutex. */
  lemma {:induction false} MutexIsFreed(s: State) returns (steps: seq<Step>, s': State)
    requires Reachable(s)
    ensures Leads(s, steps, s') && s'.shared.owner == Nobody && |steps| <= StepsLeft(s)
    ensures forall step :: step in steps ==> OfHolder(s.shared.owner, step)
    decreases StepsLeft(s)
  {
    if s.shared.owner == Nobody {
      steps, s' := [], s;
    } else {
      HolderCanMove(s);
      var step := HolderMove(s);
      var next := Onwards(s, step);
      hide Reachable, Enabled, Apply, OfHolder;
      if next.shared.owner == Nobody {
        steps, s' := [step], next;
        assert Leads(next, steps[1..], next);
      } else {
        var more: seq<Step>;
        more, s' := MutexIsFreed(next);
        steps := [step] + more;
        assert steps[1..] == more;
      }
    }
  }

  // ---- the protocol gets somewhere

  lemma {:induction false} OneMoreStep(s: State, steps: seq<Step>, s': State, step: Step)
    requires Leads(s, steps, s') && Enabled(s', step)
    ensures Leads(s, steps + [step], Apply(s', step))
    decreases |steps|
  {
    if steps == [] {
      assert [step][1..] == [] && (steps + [step]) == [step];
    } else {
      OneMoreStep(Apply(s, steps[0]), steps[1..], s', step);
      assert (steps + [step])[1..] == steps[1..] + [step];
    }
  }

  /** A state reached by one more step. */
  lemma Onwards(s: State, step: Step) returns (s': State)
    requires Reachable(s) && Enabled(s, step)
    ensures Reachable(s') && s' == Apply(s, step)
  {
    var s0, steps :| Init(s0) && Leads(s0, steps, s);
    OneMoreStep(s0, steps, s, step);
    s' := Apply(s, step);
  }

  ghost function FirstServer(): Server {
    Server(Off, Region(0, 0), Region(0, 0), false, Facade(0, Pair(Region(0, 0), Region(0, 0), 0, 0)), {}, map[], false)
  }

  lemma OpenFirst() returns (s: State)
    ensures Reachable(s) && s.servers == [FirstServer()]
    ensures s.shared == Shared(Region(0, 0), Region(0, 0), {1}, map[1 := 0], [Segment(0, false, 0)],
                               Nobody, Opening(1), [], {}, [])
  {
    var s0 := State(Shared(Region(0, 0), Region(0, 0), {}, map[], [], Nobody, Idle, [], {}, []), [FirstServer()]);
    assert Init(s0) && Leads(s0, [], s0);
    hide Reachable, FirstServer, Leads, Init;
    s := Onwards(s0, OpenStatic(1));
  }

  /** A concrete loss: the files of the updatable region cannot be read, and the key of the static one is lost. */
  lemma FirstLoadFails() returns (s: State)
    ensures Reachable(s) && s.shared.writer.Idle? && s.shared.leaked == {1} && s.shared.inUse == {1}
    ensures RegisterKeys(s.shared.st, s.shared.up) == {}
  {
    s := OpenFirst();
    hide Reachable, FirstServer;
    s := Onwards(s, Fail({}));
  }

  lemma ReserveFirst() returns (s: State)
    ensures Reachable(s) && s.servers == [FirstServer()]
    ensures s.shared == Shared(Region(0, 0), Region(0, 0), {1, 2}, map[1 := 0, 2 := 1],
                               [Segment(0, false, 0), Segment(0, false, 0)], Nobody, Filling(true, 1, 2), [], {}, [])
  {
    s := OpenFirst();
    hide Reachable, FirstServer;
    s := Onwards(s, OpenUpdatable(2));
  }

  lemma PrepareFirst() returns (s: State)
    ensures Reachable(s) && s.servers == [FirstServer()]
    ensures s.shared == Shared(Region(0, 0), Region(0, 0), {1, 2}, map[1 := 0, 2 := 1],
                               [Segment(0, true, 10), Segment(0, true, 20)], Nobody, Ready(true, 1, 2), [], {}, [])
  {
    s := ReserveFirst();
    hide Reachable, FirstServer;
    s := Onwards(s, Fill(10, 20));
  }

  /** Another: the first swap times out, and both of its keys are lost. */
  lemma FirstSwapTimesOut() returns (s: State)
    ensures Reachable(s) && s.shared.writer.Idle? && s.shared.leaked == {1, 2} && {1, 2} <= s.shared.inUse
    ensures RegisterKeys(s.shared.st, s.shared.up) == {}
  {
    s := PrepareFirst();
    hide Reachable, FirstServer;
    s := Onwards(s, TimeOut);
  }

  lemma SwapFirst() returns (s: State)
    ensures Reachable(s) && s.servers == [FirstServer()]
    ensures s.shared == Shared(Region(1, 1), Region(0, 0), {1, 2}, map[1 := 0, 2 := 1],
                               [Segment(0, true, 10), Segment(0, true, 20)], TheWriter, Swapping(true, 1, 2, 1),
                               [], {}, [])
  {
    s := PrepareFirst();
    hide Reachable, FirstServer;
    s := Onwards(s, LockWriter);
    s := Onwards(s, SwapStatic);
  }

  lemma PublishFirst() returns (s: State)
    ensures Reachable(s) && s.servers == [FirstServer()] && s.shared.owner == Nobody
    ensures s.shared.named == map[1 := 0, 2 := 1]
    ensures s.shared.st == Region(1, 1) && s.shared.up == Region(1, 2) && |s.shared.published| == 1
  {
    s := SwapFirst();
    hide Reachable, FirstServer;
    s := Onwards(s, SwapUpdatable);
    s := Onwards(s, UnlockWriter);
  }

  /** A reader can be handed the data of the first swap. */
  lemma ReaderGetsFirstData() returns (s: State)
    ensures Reachable(s) && |s.servers| == 1 && 7 in s.servers[0].held
    ensures s.servers[0].held[7].pair == Pair(Region(1, 1), Region(1, 2), 0, 1)
  {
    s := PublishFirst();
    hide Reachable;
    s := Onwards(s, Construct(0));
    s := Onwards(s, LockFactory(0));
    s := Onwards(s, Install(0));
    s := Onwards(s, UnlockFactory(0));
    s := Onwards(s, Unlock(0));
    s := Onwards(s, GetBegin(0, 7));
    s := Onwards(s, GetEnd(0, 7));
  }
}
