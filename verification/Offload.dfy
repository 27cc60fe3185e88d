/** Turning off an interface's capture-distorting offloads and putting them back
    (ai_fingerprint/offload.py, CaptureOffloadManager). */
module Offload {
  import opened Seqs

  datatype Feature = Gro | Gso | Tso | Lro

  /** What a read says about one feature. */
  datatype Item = Unsupported | Supported(enabled: bool, locked: bool)

  /** A report of the interface: none yet, a failed read, or all features. */
  datatype Reading = NotRead | Failed | Read(items: map<Feature, Item>)
  {
    predicate ReadsOn(f: Feature) {
      Read? && f in items && items[f].Supported? && items[f].enabled
    }

    /** On, and not reported as fixed. */
    predicate Switchable(f: Feature) {
      ReadsOn(f) && !items[f].locked
    }
  }

  datatype Command = Command(feature: Feature, enabled: bool)

  datatype Action = Action(command: Command, ok: bool)

  /** An interface whose features are independent. Any read may fail; any command
      may be refused, or accepted without effect. Which ones, by number, is
      arbitrary. */
  class Interface {
    const supported: set<Feature>
    const locked: set<Feature>
    const failingReads: set<nat>
    const refused: set<nat>
    const ignored: set<nat>
    var on: set<Feature>
    var readCount: nat
    var commands: seq<Command>

    constructor (supported: set<Feature>, locked: set<Feature>, on: set<Feature>, failingReads: set<nat>, refused: set<nat>, ignored: set<nat>)
      ensures this.on == on && readCount == 0 && commands == []
    {
      this.supported, this.locked, this.on := supported, locked, on;
      this.failingReads, this.refused, this.ignored := failingReads, refused, ignored;
      readCount, commands := 0, [];
    }

    function ItemOf(f: Feature): Item
      reads this
    {
      if f in supported || f in on then Supported(f in on, f in locked) else Unsupported
    }

    function Items(): map<Feature, Item>
      reads this
    {
      map[Gro := ItemOf(Gro), Gso := ItemOf(Gso), Tso := ItemOf(Tso), Lro := ItemOf(Lro)]
    }

    /** read_offload_state */
    method ReadState() returns (r: Reading)
      modifies `readCount
      ensures readCount == old(readCount) + 1
      ensures r == if old(readCount) in failingReads then Failed else Read(Items())
      ensures r.Read? ==> forall f: Feature :: r.ReadsOn(f) <==> f in on
      ensures r.Read? ==> forall f: Feature :: r.Switchable(f) <==> f in on && f !in locked
    {
      readCount := readCount + 1;
      if readCount - 1 in failingReads { return Failed; }
      r := Read(Items());
      forall f: Feature ensures (r.ReadsOn(f) <==> f in on) && (r.Switchable(f) <==> f in on && f !in locked) {
        match f { case Gro => case Gso => case Tso => case Lro => }
      }
    }

    /** Command number n is refused, has no effect, or switches its own feature. */
    method Execute(c: Command) returns (ok: bool)
      modifies `on, `commands
      ensures commands == old(commands) + [c]
      ensures ok <==> |old(commands)| !in refused
      ensures on == if ok && |old(commands)| !in ignored then Switched(old(on), c) else old(on)
    {
      var n := |commands|;
      commands := commands + [c];
      ok := n !in refused;
      if ok && n !in ignored { on := Switched(on, c); }
    }
  }

  function Switched(on: set<Feature>, c: Command): set<Feature> {
    if c.enabled then on + {c.feature} else on - {c.feature}
  }

  datatype Status = NotStarted | ManagementDisabled | PreflightFailed | DisableVerificationFailed
                  | CaptureSafe | RestoreDisabled | RestoreFailed | Restored

  /** Features that a read reports as on, in order. */
  function EnabledRequested(features: seq<Feature>, r: Reading): seq<Feature> {
    Filter(features, ReportedOn(r))
  }

  function ReportedOn(r: Reading): Feature -> bool {
    (f: Feature) => r.ReadsOn(f)
  }

  predicate AllOk(actions: seq<Action>) {
    forall i :: 0 <= i < |actions| ==> actions[i].ok
  }

  lemma AllOkPrefix(actions: seq<Action>, last: Action)
    ensures AllOk(actions + [last]) <==> AllOk(actions) && last.ok
  {
    assert forall i :: 0 <= i < |actions| ==> (actions + [last])[i] == actions[i];
    assert (actions + [last])[|actions|] == last;
  }

  class CaptureOffloadManager {
    const nic: Interface
    const enabled: bool
    const required: bool
    const allowSudo: bool
    const restoreOnExit: bool
    const features: seq<Feature>
    var before: Reading
    var afterDisable: Reading
    var afterRestore: Reading
    var disableActions: seq<Action>
    var restoreActions: seq<Action>
    var changed: seq<Feature>
    var started: bool
    var restored: bool
    var status: Status
    /** What was on when management started. */
    ghost var original: set<Feature>

    constructor (nic: Interface, enabled: bool, required: bool, allowSudo: bool, restoreOnExit: bool, features: seq<Feature>)
      ensures Valid() && this.nic == nic && !started && !restored && status == NotStarted
      ensures this.enabled == enabled && this.required == required && this.allowSudo == allowSudo
      ensures this.restoreOnExit == restoreOnExit && this.features == features
    {
      this.nic, this.enabled, this.required, this.allowSudo := nic, enabled, required, allowSudo;
      this.restoreOnExit, this.features := restoreOnExit, features;
      before, afterDisable, afterRestore := NotRead, NotRead, NotRead;
      disableActions, restoreActions, changed := [], [], [];
      started, restored, status := false, false, NotStarted;
      original := {};
    }

    /** Nothing is changed before the start. Afterwards, whatever differs from the
        original is a changed feature that was on and could be switched. */
    ghost predicate Valid()
      reads this, nic
    {
      && (!started ==> changed == [] && restoreActions == [] && !restored && status == NotStarted)
      && (!restored ==> restoreActions == [])
      && (forall f :: f in changed ==> f in features && before.Switchable(f) && f in original)
      && (status == ManagementDisabled ==> changed == [])
      && (started && !restored ==> nic.on <= original && forall f :: f in original && f !in nic.on ==> f in changed)
    }

    /** _run_set_command: the command itself, then once more through sudo. */
    method RunSetCommand(c: Command) returns (action: Action)
      modifies nic`on, nic`commands
      ensures action.command == c
      ensures nic.on == old(nic.on) || nic.on == Switched(old(nic.on), c)
      ensures !action.ok ==> nic.on == old(nic.on)
      ensures nic.refused == {} ==> action.ok
      ensures action.ok && nic.ignored == {} ==> nic.on == Switched(old(nic.on), c)
      ensures var direct := |old(nic.commands)| !in nic.refused;
              && nic.commands == old(nic.commands) + (if !direct && allowSudo then [c, c] else [c])
              && action.ok == (direct || (allowSudo && |old(nic.commands)| + 1 !in nic.refused))
    {
      var ok := nic.Execute(c);
      if !ok && allowSudo { ok := nic.Execute(c); }
      action := Action(c, ok);
    }

    /** Switch off what a read found on and not fixed. */
    method Disable()
      requires before.Read? && changed == [] && original == nic.on
      requires forall f :: f in original <==> before.ReadsOn(f)
      modifies this`disableActions, this`changed, nic`on, nic`commands
      ensures nic.on <= original && forall f :: f in original && f !in nic.on ==> f in changed
      ensures forall f :: f in changed ==> f in features && before.Switchable(f) && f in original
      ensures old(nic.commands) <= nic.commands
      ensures forall k :: |old(nic.commands)| <= k < |nic.commands| ==>
                !nic.commands[k].enabled && nic.commands[k].feature in features && before.Switchable(nic.commands[k].feature)
      ensures nic.refused == {} == nic.ignored ==> forall f :: f in features && before.Switchable(f) ==> f !in nic.on
    {
      for i := 0 to |features|
        invariant nic.on <= original && forall f :: f in original && f !in nic.on ==> f in changed
        invariant forall f :: f in changed ==> f in features && before.Switchable(f) && f in original
        invariant old(nic.commands) <= nic.commands
        invariant forall k :: |old(nic.commands)| <= k < |nic.commands| ==>
                    !nic.commands[k].enabled && nic.commands[k].feature in features && before.Switchable(nic.commands[k].feature)
        invariant nic.refused == {} == nic.ignored ==> forall j :: 0 <= j < i && before.Switchable(features[j]) ==> features[j] !in nic.on
      {
        var feature := features[i];
        if before.ReadsOn(feature) {
          if before.items[feature].locked {
            disableActions := disableActions + [Action(Command(feature, false), false)];
          } else {
            var action := RunSetCommand(Command(feature, false));
            disableActions := disableActions + [action];
            if action.ok { changed := changed + [feature]; }
          }
        }
      }
    }

    /** Start management; raised says whether the experiment must be abandoned. */
    method Start() returns (raised: bool)
      requires Valid()
      modifies this, nic
      ensures Valid() && started
      ensures old(started) ==> !raised && restored == old(restored) && status == old(status) && changed == old(changed)
      ensures old(started) ==> nic.on == old(nic.on) && nic.commands == old(nic.commands)
      ensures old(started) ==> before == old(before) && original == old(original)
      ensures !old(started) ==> original == old(nic.on)
      ensures !old(started) && before.Read? ==> forall f: Feature :: before.Switchable(f) <==> f in old(nic.on) && f !in nic.locked
      ensures !old(started) && !enabled ==> status == ManagementDisabled && nic.commands == old(nic.commands)
      ensures !old(started) && enabled && before == Failed ==> status == PreflightFailed && nic.commands == old(nic.commands)
      ensures !old(started) && enabled && before != Failed ==>
                && before.Read? && (status == CaptureSafe <==> afterDisable.Read? && EnabledRequested(features, afterDisable) == [])
                && (status != CaptureSafe ==> restored && (status == Restored || status == RestoreFailed))
      ensures !old(started) && enabled && before.Read? && afterDisable.Read? && nic.refused == {} == nic.ignored ==>
                (forall f :: f in features && before.ReadsOn(f) ==> before.Switchable(f)) ==> status == CaptureSafe
      ensures !old(started) && status != Restored && status != RestoreFailed ==> !restored
      ensures !old(started) ==> (raised <==> required && enabled && status != CaptureSafe)
      ensures !old(started) ==> (status == CaptureSafe ==> forall f :: f in features ==> f !in nic.on)
      ensures !old(started) && status == Restored ==> nic.on == old(nic.on)
      ensures !old(started) && status == RestoreFailed && AllOk(restoreActions) && nic.ignored == {} ==> nic.on == old(nic.on)
      ensures old(nic.commands) <= nic.commands
      ensures forall k :: |old(nic.commands)| <= k < |nic.commands| ==>
                nic.commands[k].feature in features && before.Switchable(nic.commands[k].feature)
    {
      raised := false;
      if started { return; }
      started := true;
      original := nic.on;
      before := nic.ReadState();
      if !enabled {
        afterDisable := before;
        status := ManagementDisabled;
        return;
      }
      if !before.Read? {
        status := PreflightFailed;
        return required;
      }
      Disable();
      VerifyDisabled();
      return required && status != CaptureSafe;
    }

    /** Read the state again: safe when nothing managed is on, otherwise put
        everything back. */
    method VerifyDisabled()
      requires Valid() && started && !restored && before.Read?
      modifies this`afterDisable, this`afterRestore, this`restoreActions, this`restored, this`status, nic
      ensures Valid()
      ensures status == CaptureSafe <==> afterDisable.Read? && EnabledRequested(features, afterDisable) == []
      ensures afterDisable.Read? && old(forall f :: f in features ==> f !in nic.on) ==> status == CaptureSafe
      ensures status == CaptureSafe ==> !restored && forall f :: f in features ==> f !in nic.on
      ensures status != CaptureSafe ==> restored && (status == Restored || status == RestoreFailed)
      ensures status == Restored ==> nic.on == original
      ensures status == RestoreFailed && AllOk(restoreActions) && nic.ignored == {} ==> nic.on == original
      ensures old(nic.commands) <= nic.commands
      ensures forall k :: |old(nic.commands)| <= k < |nic.commands| ==> nic.commands[k].feature in changed
    {
      afterDisable := nic.ReadState();
      var remaining := EnabledRequested(features, afterDisable);
      forall f ensures f in remaining <==> f in features && afterDisable.ReadsOn(f) {
        FilterMember(features, ReportedOn(afterDisable), f);
      }
      assert remaining != [] ==> remaining[0] in remaining;
      if !afterDisable.Read? || remaining != [] {
        status := DisableVerificationFailed;
        Restore(true);
      } else {
        status := CaptureSafe;
      }
    }

    /** Put back what was changed. */
    method Restore(force: bool)
      requires Valid()
      modifies this`restoreActions, this`afterRestore, this`restored, this`status, nic
      ensures Valid()
      ensures old(restored) || !started ==> nic.on == old(nic.on) && nic.commands == old(nic.commands)
      ensures old(restored) || !started ==> status == old(status) && restored == old(restored) && restoreActions == old(restoreActions)
      ensures started ==> restored
      ensures changed == [] ==> nic.on == old(nic.on)
      ensures !old(restored) && started && !restoreOnExit && !force ==>
                status == RestoreDisabled && nic.on == old(nic.on) && nic.commands == old(nic.commands)
      ensures !old(restored) && started && (restoreOnExit || force) ==>
                && |restoreActions| == |changed|
                && (AllOk(restoreActions) && nic.ignored == {} ==> nic.on == original)
                && status == (if !AllOk(restoreActions) || (changed != [] && !afterRestore.Read?) || nic.on != original then RestoreFailed
                              else if old(status) == ManagementDisabled then ManagementDisabled else Restored)
      ensures old(nic.commands) <= nic.commands
      ensures forall k :: |old(nic.commands)| <= k < |nic.commands| ==> nic.commands[k].enabled && nic.commands[k].feature in changed
    {
      if restored || !started { return; }
      if !restoreOnExit && !force {
        status := RestoreDisabled;
        restored := true;
        return;
      }
      PutBack();
      afterRestore := nic.ReadState();
      var mismatch := changed;
      if afterRestore.Read? { mismatch := Filter(changed, NotReportedOn(afterRestore)); }
      forall f ensures afterRestore.Read? ==> (f in mismatch <==> f in changed && f !in nic.on) {
        FilterMember(changed, NotReportedOn(afterRestore), f);
      }
      restored := true;
      Mismatched(nic.on, original, changed, mismatch, afterRestore.Read?);
      if !AllOk(restoreActions) || mismatch != [] {
        status := RestoreFailed;
      } else if status != ManagementDisabled {
        status := Restored;
      }
    }

    /** The loop that writes the changed features back. */
    method PutBack()
      requires Valid() && started && !restored
      modifies this`restoreActions, nic`on, nic`commands
      ensures |restoreActions| == |changed|
      ensures nic.on <= original && forall f :: f in original && f !in nic.on ==> f in changed
      ensures AllOk(restoreActions) && nic.ignored == {} ==> nic.on == original
      ensures old(nic.commands) <= nic.commands
      ensures forall k :: |old(nic.commands)| <= k < |nic.commands| ==> nic.commands[k].enabled && nic.commands[k].feature in changed
    {
      for i := 0 to |changed|
        invariant |restoreActions| == i
        invariant nic.on <= original && forall f :: f in original && f !in nic.on ==> f in changed
        invariant AllOk(restoreActions) && nic.ignored == {} ==> forall j :: 0 <= j < i ==> changed[j] in nic.on
        invariant old(nic.commands) <= nic.commands
        invariant forall k :: |old(nic.commands)| <= k < |nic.commands| ==> nic.commands[k].enabled && nic.commands[k].feature in changed
      {
        var feature := changed[i];
        assert feature in changed;
        var action := RunSetCommand(Command(feature, before.ReadsOn(feature)));
        AllOkPrefix(restoreActions, action);
        restoreActions := restoreActions + [action];
      }
    }
  }

  /** A mismatch is found just when something changed cannot be read back or is
      not back. */
  lemma Mismatched(on: set<Feature>, original: set<Feature>, changed: seq<Feature>, mismatch: seq<Feature>, read: bool)
    requires on <= original && (forall f :: f in original && f !in on ==> f in changed) && forall f :: f in changed ==> f in original
    requires if read then forall f :: f in mismatch <==> f in changed && f !in on else mismatch == changed
    ensures mismatch == [] <==> !(changed != [] && !read) && on == original
  {
    assert mismatch != [] ==> mismatch[0] in mismatch;
    assert changed == [] ==> on == original;
    assert on != original ==> exists f :: f in original && f !in on;
  }

  function NotReportedOn(r: Reading): Feature -> bool {
    (f: Feature) => !r.ReadsOn(f)
  }

  /** A whole session: start, restore when the capture ends, and once more on
      exit. With restoring active the interface ends as it was unless a command
      was refused or had no effect, and the status says so; the second restore
      does nothing. */
  method CaptureSession(m: CaptureOffloadManager, force: bool) returns (raised: bool)
    requires m.Valid() && !m.started
    modifies m, m.nic
    ensures m.Valid() && m.started && m.restored
    ensures m.status == Restored ==> m.nic.on == old(m.nic.on)
    ensures m.restoreOnExit || force ==>
              (AllOk(m.restoreActions) && m.nic.ignored == {} ==> m.nic.on == old(m.nic.on))
    ensures m.enabled == false ==> m.nic.on == old(m.nic.on)
  {
    raised := m.Start();
    m.Restore(force);
    ghost var on, commands, actions, status := m.nic.on, m.nic.commands, m.restoreActions, m.status;
    m.Restore(force);
    assert m.nic.on == on && m.nic.commands == commands && m.restoreActions == actions && m.status == status;
  }
}
