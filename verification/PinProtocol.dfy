/** The pin hazard handshake as a machine of atomic steps: any number of threads
    pin, unpin and retire versions while a leased committer installs new ones
    (crates/shm-artifact/src/head.rs, PinSlot and the slot table;
    crates/shm-artifact/src/artifact.rs, pin_inner, undo_pin,
    try_retire_version_at, PinState::drop and the install steps of a commit).
    Every load, store, compare-exchange and fetch-add is one step. */
module PinProtocol {
  import opened Common

  datatype SlotState = Free | Live | Freeing

  datatype Slot = Slot(version: nat, manifest: nat, pins: int, state: SlotState)

  /** The instruction a thread is about to execute. Reader instructions begin with
      R, the retire loop with T and the install half of a commit with C. */
  datatype Pc =
    | Idle
    | RFindState | RFindVersion | RPublish | RAcceptState | RAcceptVersion | RDesc | RManifest | RRead
    | Held | Undo | UndoVersion | UndoCurrent
    | TFindState | TFindVersion | TFindManifest | TCurrent | TElect | TScan | TRevert | TRescan
    | TLoad | TRelease | TClearVersion | TClearManifest | TFree
    | CClaim | CManifest | CVersion | CPrior | CInstall | CDesc

  /** A thread's instruction and registers: the version it works for, the slot it
      stands at, a manifest, and the manifest a retire insists on, if any. */
  datatype Thread = Thread(pc: Pc, v: nat, i: nat, m: nat, bits: Option<nat>)

  const RESTING: Thread := Thread(Idle, 0, 0, 0, None)

  /** `owned` maps each manifest whose version reference is outstanding to that
      version; `content` is what a manifest's bytes say, also after it was freed. */
  datatype State = State(
    current: nat, desc: nat, slots: seq<Slot>, owned: map<nat, nat>, content: map<nat, nat>,
    leased: bool, threads: map<nat, Thread>)

  /** What a thread at rest starts; every other step is determined. */
  datatype Act = Go | Pin | Retire(version: nat) | Commit(manifest: nat)

  function ThreadOf(s: State, t: nat): Thread {
    if t in s.threads then s.threads[t] else RESTING
  }

  function FreshSlot(): Slot {
    Slot(0, 0, 0, Free)
  }

  function SlotAt(s: State, i: nat): Slot {
    if i < |s.slots| then s.slots[i] else FreshSlot()
  }

  /** What a step sees besides the thread and the slot it stands at: the table
      size, the shared words, whether the manifest register reads as the version
      wanted, and whether a manifest to be staged is still referenced. */
  datatype View = View(n: nat, current: nat, desc: nat, leased: bool, matches: bool, taken: bool)

  /** What a step leaves: the thread, its slot, the shared words, and a version
      reference given up or taken. */
  datatype Effect = Effect(
    th: Thread, slot: Slot, current: nat, desc: nat, leased: bool, released: Option<nat>, staged: Option<nat>)

  /** The step changes at most the thread and the slot it stands at. */
  function Local(th: Thread, slot: Slot, view: View): Effect {
    Effect(th, slot, view.current, view.desc, view.leased, None, None)
  }

  function StartRetire(v: nat, bits: Option<nat>): Thread {
    Thread(TFindState, v, 0, 0, bits)
  }

  /** A reader looking for the slot of the version it loaded, and publishing its
      pin there. */
  function SeekStep(th: Thread, slot: Slot, view: View): Effect {
    match th.pc
    case RFindState =>
      Local(if th.i >= view.n then RESTING
            else if slot.state == Live then th.(pc := RFindVersion) else th.(i := th.i + 1), slot, view)
    case RFindVersion =>
      Local(if slot.version == th.v then th.(pc := RPublish) else th.(pc := RFindState, i := th.i + 1), slot, view)
    case RPublish => Local(th.(pc := RAcceptState), slot.(pins := slot.pins + 1), view)
    case _ => Local(th, slot, view)
  }

  /** A reader revalidating the slot it bumped, then reading the manifest. */
  function AcceptStep(th: Thread, slot: Slot, view: View): Effect {
    match th.pc
    case RAcceptState => Local(th.(pc := if slot.state == Live then RAcceptVersion else Undo), slot, view)
    case RAcceptVersion => Local(th.(pc := if slot.version == th.v then RDesc else Undo), slot, view)
    case RDesc => Local(th.(pc := RManifest, m := view.desc), slot, view)
    case RManifest => Local(th.(pc := if slot.manifest == th.m then RRead else Undo), slot, view)
    case RRead => Local(th.(pc := if view.matches then Held else Undo), slot, view)
    case _ => Local(th, slot, view)
  }

  /** Giving a pin back, on a back-off or when a holder drops: whoever takes the
      count to zero reclaims the version if it is no longer current. */
  function UnpinStep(th: Thread, slot: Slot, view: View): Effect {
    match th.pc
    case Undo =>
      Local(if slot.pins == 1 then th.(pc := UndoVersion) else RESTING, slot.(pins := slot.pins - 1), view)
    case UndoVersion =>
      Local(if slot.version == 0 then RESTING else th.(pc := UndoCurrent, v := slot.version), slot, view)
    case UndoCurrent => Local(if view.current == th.v then RESTING else StartRetire(th.v, None), slot, view)
    case Held =>
      Local(if slot.pins == 1 then th.(pc := UndoCurrent) else RESTING, slot.(pins := slot.pins - 1), view)
    case _ => Local(th, slot, view)
  }

  /** A retire looking for the slot of its version, and giving up if that version
      is current. */
  function FindStep(th: Thread, slot: Slot, view: View): Effect {
    match th.pc
    case TFindState =>
      Local(if th.i >= view.n then RESTING
            else if slot.state == Live then th.(pc := TFindVersion) else th.(i := th.i + 1), slot, view)
    case TFindVersion =>
      Local(if slot.version != th.v then th.(pc := TFindState, i := th.i + 1)
            else th.(pc := if th.bits.Some? then TFindManifest else TCurrent), slot, view)
    case TFindManifest =>
      Local(if th.bits == Some(slot.manifest) then th.(pc := TCurrent)
            else th.(pc := TFindState, i := th.i + 1), slot, view)
    case TCurrent => Local(if view.current == th.v then RESTING else th.(pc := TElect), slot, view)
    case _ => Local(th, slot, view)
  }

  /** Elect, scan, and revert if pinned: then either a live pin takes over, or the
      pin is gone and the retire starts again. */
  function ElectStep(th: Thread, slot: Slot, view: View): Effect {
    match th.pc
    case TElect =>
      if slot.state == Live then Local(th.(pc := TScan), slot.(state := Freeing), view)
      else Local(RESTING, slot, view)
    case TScan => Local(th.(pc := if slot.pins != 0 then TRevert else TLoad), slot, view)
    case TRevert => Local(th.(pc := TRescan), slot.(state := Live), view)
    case TRescan => Local(if slot.pins != 0 then RESTING else StartRetire(th.v, th.bits), slot, view)
    case _ => Local(th, slot, view)
  }

  /** Past a scan of zero: release the version's reference and free the slot. */
  function FreeStep(th: Thread, slot: Slot, view: View): Effect {
    match th.pc
    case TLoad => Local(th.(pc := TRelease, m := slot.manifest), slot, view)
    case TRelease => Local(th.(pc := TClearVersion), slot, view).(released := Some(th.m))
    case TClearVersion => Local(th.(pc := TClearManifest), slot.(version := 0), view)
    case TClearManifest => Local(th.(pc := TFree), slot.(manifest := 0), view)
    case TFree => Local(RESTING, slot.(state := Free), view)
    case _ => Local(th, slot, view)
  }

  /** The install half of a commit of version `v`, whose manifest is staged at `m`;
      it ends by retiring the predecessor's endorsed slot. A full table gives the
      staged manifest back. */
  function CommitStep(th: Thread, slot: Slot, view: View): Effect {
    match th.pc
    case CClaim =>
      if th.i >= view.n then Local(RESTING, slot, view).(leased := false, released := Some(th.m))
      else if slot.state == Free then Local(th.(pc := CManifest), slot.(state := Live), view)
      else Local(th.(i := th.i + 1), slot, view)
    case CManifest => Local(th.(pc := CVersion), slot.(manifest := th.m), view)
    case CVersion => Local(th.(pc := CPrior), slot.(version := th.v), view)
    case CPrior => Local(th.(pc := CInstall, bits := Some(view.desc)), slot, view)
    case CInstall => Local(th.(pc := CDesc), slot, view).(current := th.v)
    case CDesc =>
      Local(if th.v > 1 then StartRetire(th.v - 1, th.bits) else RESTING, slot, view)
      .(desc := th.m, leased := false)
    case _ => Local(th, slot, view)
  }

  /** Starting something new from rest. */
  function StartStep(th: Thread, slot: Slot, view: View, a: Act): Effect {
    match a
    case Go => Local(th, slot, view)
    case Pin => Local(if view.current == 0 then th else Thread(RFindState, view.current, 0, 0, None), slot, view)
    case Retire(v) => Local(StartRetire(v, None), slot, view)
    case Commit(m) =>
      if view.leased || m == 0 || view.taken then Local(th, slot, view)
      else Local(Thread(CClaim, view.current + 1, 0, m, None), slot, view).(leased := true, staged := Some(m))
  }

  predicate Seeking(pc: Pc) {
    pc.RFindState? || pc.RFindVersion? || pc.RPublish?
  }

  predicate Accepting(pc: Pc) {
    pc.RAcceptState? || pc.RAcceptVersion? || pc.RDesc? || pc.RManifest? || pc.RRead?
  }

  predicate Unpinning(pc: Pc) {
    pc.Held? || pc.Undo? || pc.UndoVersion? || pc.UndoCurrent?
  }

  predicate Finding(pc: Pc) {
    pc.TFindState? || pc.TFindVersion? || pc.TFindManifest? || pc.TCurrent?
  }

  predicate Electing(pc: Pc) {
    pc.TElect? || pc.TScan? || pc.TRevert? || pc.TRescan?
  }

  /** Past the scan: nothing but the slot's release and reset is left to do. */
  predicate Reclaiming(pc: Pc) {
    pc.TLoad? || pc.TRelease? || pc.TClearVersion? || pc.TClearManifest? || pc.TFree?
  }

  predicate Committing(pc: Pc) {
    pc.CClaim? || pc.CManifest? || pc.CVersion? || pc.CPrior? || pc.CInstall? || pc.CDesc?
  }

  function Act1(th: Thread, slot: Slot, view: View, a: Act): Effect {
    if th.pc.Idle? then StartStep(th, slot, view, a)
    else if Seeking(th.pc) then SeekStep(th, slot, view)
    else if Accepting(th.pc) then AcceptStep(th, slot, view)
    else if Unpinning(th.pc) then UnpinStep(th, slot, view)
    else if Finding(th.pc) then FindStep(th, slot, view)
    else if Electing(th.pc) then ElectStep(th, slot, view)
    else if Reclaiming(th.pc) then FreeStep(th, slot, view)
    else CommitStep(th, slot, view)
  }

  function ViewOf(s: State, th: Thread, a: Act): View {
    View(|s.slots|, s.current, s.desc, s.leased,
         th.m in s.content && s.content[th.m] == th.v,
         a.Commit? && a.manifest in s.owned)
  }

  function EffectOf(s: State, t: nat, a: Act): Effect {
    var th := ThreadOf(s, t);
    Act1(th, SlotAt(s, th.i), ViewOf(s, th, a), a)
  }

  function Apply(s: State, t: nat, e: Effect): State {
    var i := ThreadOf(s, t).i;
    var kept := if e.released.Some? then s.owned - {e.released.value} else s.owned;
    State(e.current, e.desc,
          if i < |s.slots| then s.slots[i := e.slot] else s.slots,
          if e.staged.Some? then kept[e.staged.value := e.th.v] else kept,
          if e.staged.Some? then s.content[e.staged.value := e.th.v] else s.content,
          e.leased,
          s.threads[t := e.th])
  }

  /** One atomic step of thread t. */
  function Step(s: State, t: nat, a: Act): State {
    Apply(s, t, EffectOf(s, t, a))
  }

  function Init(n: nat): State {
    State(0, 0, seq(n, _ => FreshSlot()), map[], map[], false, map[])
  }

  /** A schedule: which thread steps next, and what it starts when at rest. */
  type Schedule = seq<(nat, Act)>

  function Run(s: State, sched: Schedule): State {
    if |sched| == 0 then s
    else
      var last := sched[|sched| - 1];
      Step(Run(s, sched[..|sched| - 1]), last.0, last.1)
  }
}
