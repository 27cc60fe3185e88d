/** The stability gate of the live monitor (ai_fingerprint/live_inference.py,
    _clear_stability and the gate of _emit_prediction): a history of at most
    stable_windows labels per key, which must agree with the whole past. */
module LiveGate {
  import opened Results
  import opened Seqs

  datatype Level = Family | Architecture | Variant | Application

  const LEVELS: seq<Level> := [Family, Architecture, Variant, Application]

  datatype Key = Key(trace: string, mode: string, size: real, level: Level)

  /** The label predicted at one level and its confidence; None is no label. */
  datatype LevelResult = LevelResult(prediction: Option<string>, confidence: real)

  datatype Prediction = Prediction(family: LevelResult, architecture: LevelResult, variant: LevelResult, application: LevelResult)
  {
    function At(level: Level): LevelResult {
      match level
      case Family => family
      case Architecture => architecture
      case Variant => variant
      case Application => application
    }
  }

  /** What one window means for one key: an accepted label, or a rejection. */
  datatype Verdict = Accepted(name: string) | Rejected

  function Judge(result: LevelResult, threshold: real): Verdict {
    match result.prediction
    case None => Rejected
    case Some(name) => if name != "" && result.confidence >= threshold then Accepted(name) else Rejected
  }

  /** The new bounded history after one verdict. */
  function Push(history: seq<string>, verdict: Verdict, bound: nat): seq<string>
    requires bound >= 1
  {
    match verdict
    case Rejected => []
    case Accepted(name) =>
      var longer := history + [name];
      if |longer| > bound then longer[|longer| - bound..] else longer
  }

  /** The gate's own test: a full history with a single label. */
  predicate IsStable(history: seq<string>, bound: nat)
  {
    && |history| >= bound
    && forall i, j :: |history| - bound <= i < |history| && |history| - bound <= j < |history| ==> history[i] == history[j]
  }

  /** One window seen by one key: its verdict and the end of the window. */
  datatype Seen = Seen(verdict: Verdict, elapsed: real)

  /** The bounded history and the first stable time, as the gate keeps them. */
  datatype Gate = Gate(history: seq<string>, first: Option<real>)

  function Step(gate: Gate, seen: Seen, bound: nat): Gate
    requires bound >= 1
  {
    var history := Push(gate.history, seen.verdict, bound);
    Gate(history, if gate.first.None? && IsStable(history, bound) then Some(seen.elapsed) else gate.first)
  }

  // ----- the imperative gate -----

  /** What the two dictionaries hold for one key. */
  function KeyState(stability: map<Key, seq<string>>, stableFirst: map<Key, real>, key: Key): Gate {
    Gate(if key in stability then stability[key] else [],
         if key in stableFirst then Some(stableFirst[key]) else None)
  }

  class StabilityGate {
    const confidenceThreshold: real
    const stableWindows: nat
    var stability: map<Key, seq<string>>
    var stableFirst: map<Key, real>

    function At(key: Key): Gate
      reads this
    {
      KeyState(stability, stableFirst, key)
    }

    constructor (confidenceThreshold: real, stableWindows: int)
      ensures this.confidenceThreshold == confidenceThreshold
      ensures this.stableWindows == if stableWindows > 1 then stableWindows else 1
      ensures forall key :: At(key) == Gate([], None)
    {
      this.confidenceThreshold := confidenceThreshold;
      this.stableWindows := if stableWindows > 1 then stableWindows else 1;
      stability, stableFirst := map[], map[];
    }

    method ClearStability(trace: string, mode: string, size: real)
      modifies this`stability
      ensures forall key :: At(key) ==
                if key == Key(trace, mode, size, key.level) then old(At(key)).(history := []) else old(At(key))
    {
      for n := 0 to |LEVELS|
        invariant forall key :: At(key) ==
                    if key == Key(trace, mode, size, key.level) && key.level in LEVELS[..n]
                    then old(At(key)).(history := []) else old(At(key))
      {
        assert LEVELS[..n + 1] == LEVELS[..n] + [LEVELS[n]];
        stability := stability[Key(trace, mode, size, LEVELS[n]) := []];
      }
      AllLevels();
    }

    /** One level of _emit_prediction. */
    method Observe(key: Key, verdict: Verdict, elapsed: real) returns (stable: bool)
      requires stableWindows >= 1
      modifies this
      ensures At(key) == Step(old(At(key)), Seen(verdict, elapsed), stableWindows)
      ensures forall k :: k != key ==> At(k) == old(At(k))
      ensures stable == IsStable(At(key).history, stableWindows)
    {
      var history := At(key).history;
      match verdict {
        case Accepted(name) =>
          history := history + [name];
          if |history| > stableWindows { history := history[|history| - stableWindows..]; }
        case Rejected =>
          history := [];
      }
      stability := stability[key := history];
      stable := IsStable(history, stableWindows);
      if stable && key !in stableFirst {
        stableFirst := stableFirst[key := elapsed];
      }
    }

    /** The gate of _emit_prediction: all four levels of one window. */
    method EmitPrediction(trace: string, mode: string, size: real, elapsed: real, prediction: Prediction)
      returns (stable: map<Level, bool>)
      requires stableWindows >= 1
      modifies this
      ensures forall key :: At(key) ==
                if key == Key(trace, mode, size, key.level)
                then Step(old(At(key)), Seen(Judge(prediction.At(key.level), confidenceThreshold), elapsed), stableWindows)
                else old(At(key))
      ensures forall level :: level in stable
      ensures forall level :: stable[level] == IsStable(At(Key(trace, mode, size, level)).history, stableWindows)
    {
      stable := map[];
      for n := 0 to |LEVELS|
        invariant forall key :: At(key) ==
                    if key == Key(trace, mode, size, key.level) && key.level in LEVELS[..n]
                    then Step(old(At(key)), Seen(Judge(prediction.At(key.level), confidenceThreshold), elapsed), stableWindows)
                    else old(At(key))
        invariant forall level :: level in LEVELS[..n] ==>
                    && level in stable
                    && stable[level] == IsStable(At(Key(trace, mode, size, level)).history, stableWindows)
      {
        var level := LEVELS[n];
        assert LEVELS[..n + 1] == LEVELS[..n] + [level] && level !in LEVELS[..n];
        var isStable := Observe(Key(trace, mode, size, level), Judge(prediction.At(level), confidenceThreshold), elapsed);
        stable := stable[level := isStable];
      }
      AllLevels();
    }
  }

  lemma AllLevels()
    ensures LEVELS[..|LEVELS|] == LEVELS
    ensures forall level: Level :: level in LEVELS
  {
    forall level: Level ensures level in LEVELS {
      match level
      case Family => assert LEVELS[0] == level;
      case Architecture => assert LEVELS[1] == level;
      case Variant => assert LEVELS[2] == level;
      case Application => assert LEVELS[3] == level;
    }
  }

  // ----- the whole past of one key -----

  function Run(past: seq<Seen>, bound: nat): Gate
    requires bound >= 1
  {
    if past == [] then Gate([], None) else Step(Run(past[..|past| - 1], bound), past[|past| - 1], bound)
  }

  /** The last bound verdicts were all accepted, with one label. */
  ghost predicate Agreed(past: seq<Seen>, bound: nat) {
    && |past| >= bound
    && exists name :: forall k :: |past| - bound <= k < |past| ==> past[k].verdict == Accepted(name)
  }

  /** How many of the latest verdicts were accepted without interruption. */
  function Streak(past: seq<Seen>): (n: nat)
    ensures n <= |past|
    ensures forall k :: |past| - n <= k < |past| ==> past[k].verdict.Accepted?
    ensures n < |past| ==> past[|past| - n - 1].verdict.Rejected?
  {
    if past == [] || past[|past| - 1].verdict.Rejected? then 0 else 1 + Streak(past[..|past| - 1])
  }

  /** history lists the labels of the latest |history| verdicts. */
  ghost predicate Latest(history: seq<string>, past: seq<Seen>) {
    && |history| <= |past|
    && forall k :: |past| - |history| <= k < |past| ==> past[k].verdict == Accepted(history[k - (|past| - |history|)])
  }

  lemma PushLatest(history: seq<string>, past: seq<Seen>, bound: nat)
    requires bound >= 1 && past != [] && |history| <= bound && Latest(history, past[..|past| - 1])
    ensures Latest(Push(history, past[|past| - 1].verdict, bound), past)
  {
    var before := past[..|past| - 1];
    if past[|past| - 1].verdict.Accepted? {
      var pushed := Push(history, past[|past| - 1].verdict, bound);
      forall k | |past| - |pushed| <= k < |past| ensures past[k].verdict == Accepted(pushed[k - (|past| - |pushed|)]) {
        if k < |before| { assert before[k].verdict == Accepted(history[k - (|before| - |history|)]); }
      }
    }
  }

  /** The bounded history is the labels of the last min(bound, streak) verdicts. */
  lemma {:induction false} HistoryIsRecentPast(past: seq<Seen>, bound: nat)
    requires bound >= 1
    ensures |Run(past, bound).history| == if Streak(past) < bound then Streak(past) else bound
    ensures Latest(Run(past, bound).history, past)
  {
    if past != [] {
      HistoryIsRecentPast(past[..|past| - 1], bound);
      PushLatest(Run(past[..|past| - 1], bound).history, past, bound);
    }
  }

  /** A key is stable exactly when its last stable_windows events were all
      accepted with one label; its history never exceeds that bound. */
  lemma StableExactlyWhenAgreed(past: seq<Seen>, bound: nat)
    requires bound >= 1
    ensures |Run(past, bound).history| <= bound
    ensures IsStable(Run(past, bound).history, bound) <==> Agreed(past, bound)
  {
    HistoryIsRecentPast(past, bound);
    var history := Run(past, bound).history;
    if IsStable(history, bound) {
      assert forall k :: |past| - bound <= k < |past| ==> past[k].verdict == Accepted(history[0]);
    }
    if Agreed(past, bound) {
      var name :| forall k :: |past| - bound <= k < |past| ==> past[k].verdict == Accepted(name);
      LatestAccepted(past, bound);
      forall k | 0 <= k < |history| ensures history[k] == name {
        assert past[|past| - |history| + k].verdict == Accepted(name);
      }
    }
  }

  lemma {:induction false} LatestAccepted(past: seq<Seen>, n: nat)
    requires n <= |past| && forall k :: |past| - n <= k < |past| ==> past[k].verdict.Accepted?
    ensures Streak(past) >= n
  {
    if n > 0 { LatestAccepted(past[..|past| - 1], n - 1); }
  }

  /** The recorded time is that of the earliest event at which the key agreed;
      it is recorded if there is one, and never overwritten. */
  lemma {:induction false} FirstStableTime(past: seq<Seen>, bound: nat)
    requires bound >= 1
    ensures match Run(past, bound).first
            case None => forall n :: 0 <= n <= |past| ==> !Agreed(past[..n], bound)
            case Some(time) =>
              exists n :: && 0 < n <= |past| && Agreed(past[..n], bound) && past[n - 1].elapsed == time
                          && forall m :: 0 <= m < n ==> !Agreed(past[..m], bound)
  {
    if past == [] {
      assert !Agreed(past[..0], bound);
    } else {
      var before := past[..|past| - 1];
      FirstStableTime(before, bound);
      StableExactlyWhenAgreed(past, bound);
      assert forall n :: 0 <= n <= |before| ==> before[..n] == past[..n];
      assert past[..|past|] == past;
      match Run(before, bound).first {
        case None =>
          if Agreed(past, bound) { assert Agreed(past[..|past|], bound); }
        case Some(time) =>
          var n :| && 0 < n <= |before| && Agreed(before[..n], bound) && before[n - 1].elapsed == time
                   && forall m :: 0 <= m < n ==> !Agreed(before[..m], bound);
          assert Agreed(past[..n], bound) && past[n - 1].elapsed == time;
      }
    }
  }

  // ----- the gate over the windows of all traces, modes and scales -----

  /** A window handed to the gate: too few packets, or a prediction. */
  datatype GateEvent =
    | LowPackets(trace: string, mode: string, size: real)
    | Predicted(trace: string, mode: string, size: real, elapsed: real, prediction: Prediction)
  {
    predicate Concerns(key: Key) {
      key.trace == trace && key.mode == mode && key.size == size
    }

    /** A low-packet window counts as a rejection at every level. */
    function SeenBy(key: Key, threshold: real): Seen {
      match this
      case LowPackets(_, _, _) => Seen(Rejected, 0.0)
      case Predicted(_, _, _, elapsed, prediction) => Seen(Judge(prediction.At(key.level), threshold), elapsed)
    }
  }

  /** What one key has seen of all events. */
  function PastOf(events: seq<GateEvent>, key: Key, threshold: real): seq<Seen> {
    if events == [] then [] else
    var before := PastOf(events[..|events| - 1], key, threshold);
    var last := events[|events| - 1];
    if last.Concerns(key) then before + [last.SeenBy(key, threshold)] else before
  }

  /** Replays all events on a new gate: the state of every key is what its own
      past alone determines. */
  method Replay(events: seq<GateEvent>, confidenceThreshold: real, stableWindows: int) returns (gate: StabilityGate)
    ensures fresh(gate) && gate.confidenceThreshold == confidenceThreshold
    ensures gate.stableWindows == if stableWindows > 1 then stableWindows else 1
    ensures forall key :: gate.At(key) == Run(PastOf(events, key, confidenceThreshold), gate.stableWindows)
  {
    gate := new StabilityGate(confidenceThreshold, stableWindows);
    for n := 0 to |events|
      invariant fresh(gate)
      invariant forall key :: gate.At(key) == Run(PastOf(events[..n], key, confidenceThreshold), gate.stableWindows)
    {
      forall key
        ensures Run(PastOf(events[..n + 1], key, confidenceThreshold), gate.stableWindows) ==
                if events[n].Concerns(key)
                then Step(gate.At(key), events[n].SeenBy(key, confidenceThreshold), gate.stableWindows)
                else gate.At(key)
      {
        PastExtended(events, n, key, confidenceThreshold, gate.stableWindows);
      }
      match events[n] {
        case LowPackets(trace, mode, size) => gate.ClearStability(trace, mode, size);
        case Predicted(trace, mode, size, elapsed, prediction) =>
          var _ := gate.EmitPrediction(trace, mode, size, elapsed, prediction);
      }
    }
    assert events[..|events|] == events;
  }

  lemma PastExtended(events: seq<GateEvent>, n: nat, key: Key, threshold: real, bound: nat)
    requires n < |events| && bound >= 1
    ensures var before := Run(PastOf(events[..n], key, threshold), bound);
            Run(PastOf(events[..n + 1], key, threshold), bound) ==
            if events[n].Concerns(key) then Step(before, events[n].SeenBy(key, threshold), bound) else before
  {
    assert events[..n + 1][..n] == events[..n];
    var past := PastOf(events[..n], key, threshold) + [events[n].SeenBy(key, threshold)];
    assert past[..|past| - 1] == PastOf(events[..n], key, threshold);
  }

  // ----- stability in terms of the events -----

  /** The event predicts this label, with enough confidence, for a window of the key's
      trace, mode and scale and at the key's level. */
  predicate Backs(e: GateEvent, key: Key, threshold: real, name: string) {
    && e.Predicted? && e.trace == key.trace && e.mode == key.mode && e.size == key.size && name != ""
    && var result := match key.level
                     case Family => e.prediction.family
                     case Architecture => e.prediction.architecture
                     case Variant => e.prediction.variant
                     case Application => e.prediction.application;
       result.prediction == Some(name) && result.confidence >= threshold
  }

  /** Of the first n events at these places, the last bound all back the label. */
  predicate AllBack(events: seq<GateEvent>, at: seq<nat>, n: nat, bound: nat, key: Key, threshold: real, name: string)
    requires bound <= n <= |at| && forall i :: 0 <= i < |at| ==> at[i] < |events|
  {
    forall i :: n - bound <= i < n ==> Backs(events[at[i]], key, threshold, name)
  }

  ghost predicate BackedUpTo(events: seq<GateEvent>, at: seq<nat>, n: nat, key: Key, threshold: real, bound: nat)
    requires n <= |at| && forall i :: 0 <= i < |at| ==> at[i] < |events|
  {
    n >= bound && exists name :: AllBack(events, at, n, bound, key, threshold, name)
  }

  /** The places of the events that concern a key. */
  lemma {:induction false} PastPlaces(events: seq<GateEvent>, key: Key, threshold: real) returns (at: seq<nat>)
    ensures Increasing(at) && |at| == |PastOf(events, key, threshold)|
    ensures forall n: nat :: n in at <==>
              n < |events| && events[n].trace == key.trace && events[n].mode == key.mode && events[n].size == key.size
    ensures forall i :: 0 <= i < |at| ==> at[i] < |events| && PastOf(events, key, threshold)[i] == events[at[i]].SeenBy(key, threshold)
  {
    at := [];
    if events != [] {
      var last := |events| - 1;
      at := PastPlaces(events[..last], key, threshold);
      if events[last].Concerns(key) { at := OnePlaceMore(at, last); }
    }
  }

  lemma AcceptedIffBacked(e: GateEvent, key: Key, threshold: real, name: string)
    requires e.trace == key.trace && e.mode == key.mode && e.size == key.size
    ensures e.SeenBy(key, threshold).verdict == Accepted(name) <==> Backs(e, key, threshold, name)
    ensures e.Predicted? ==> e.SeenBy(key, threshold).elapsed == e.elapsed
  {
  }

  lemma AgreedIffBacked(events: seq<GateEvent>, at: seq<nat>, n: nat, key: Key, threshold: real, bound: nat)
    requires n <= |at| == |PastOf(events, key, threshold)|
    requires forall i :: 0 <= i < |at| ==>
               && at[i] < |events| && PastOf(events, key, threshold)[i] == events[at[i]].SeenBy(key, threshold)
               && events[at[i]].trace == key.trace && events[at[i]].mode == key.mode && events[at[i]].size == key.size
    ensures Agreed(PastOf(events, key, threshold)[..n], bound) <==> BackedUpTo(events, at, n, key, threshold, bound)
  {
    hide Backs, PastOf;
    var past := PastOf(events, key, threshold)[..n];
    forall i, name | 0 <= i < n ensures past[i].verdict == Accepted(name) <==> Backs(events[at[i]], key, threshold, name) {
      AcceptedIffBacked(events[at[i]], key, threshold, name);
    }
    if Agreed(past, bound) {
      var name :| forall k :: |past| - bound <= k < |past| ==> past[k].verdict == Accepted(name);
      assert AllBack(events, at, n, bound, key, threshold, name);
    }
    if BackedUpTo(events, at, n, key, threshold, bound) {
      var name :| AllBack(events, at, n, bound, key, threshold, name);
      assert forall k :: |past| - bound <= k < |past| ==> past[k].verdict == Accepted(name);
    }
  }

  /** A key is stable after some events exactly when the last stable_windows events
      of its trace, mode and scale all predicted one label at its level, with at
      least the threshold of confidence; the recorded time is that of the first
      event after which it was so. */
  lemma StableExactly(events: seq<GateEvent>, key: Key, threshold: real, bound: nat) returns (at: seq<nat>)
    requires bound >= 1
    ensures Increasing(at)
    ensures forall n: nat :: n in at <==>
              n < |events| && events[n].trace == key.trace && events[n].mode == key.mode && events[n].size == key.size
    ensures forall i :: 0 <= i < |at| ==> at[i] < |events|
    ensures var gate := Run(PastOf(events, key, threshold), bound);
            && (IsStable(gate.history, bound) <==> BackedUpTo(events, at, |at|, key, threshold, bound))
            && match gate.first
               case None => forall n :: 0 <= n <= |at| ==> !BackedUpTo(events, at, n, key, threshold, bound)
               case Some(time) =>
                 exists n :: && 0 < n <= |at| && BackedUpTo(events, at, n, key, threshold, bound)
                             && events[at[n - 1]].Predicted? && events[at[n - 1]].elapsed == time
                             && forall m :: 0 <= m < n ==> !BackedUpTo(events, at, m, key, threshold, bound)
  {
    hide Run, PastOf, IsStable, Agreed;
    at := PastPlaces(events, key, threshold);
    forall i | 0 <= i < |at|
      ensures events[at[i]].trace == key.trace && events[at[i]].mode == key.mode && events[at[i]].size == key.size
    {
      assert at[i] in at;
    }
    var past := PastOf(events, key, threshold);
    assert past[..|past|] == past;
    forall n | 0 <= n <= |at| ensures Agreed(past[..n], bound) <==> BackedUpTo(events, at, n, key, threshold, bound) {
      AgreedIffBacked(events, at, n, key, threshold, bound);
    }
    StableExactlyWhenAgreed(past, bound);
    FirstStableTime(past, bound);
    if Run(past, bound).first.Some? {
      var n :| && 0 < n <= |past| && Agreed(past[..n], bound) && past[n - 1].elapsed == Run(past, bound).first.value
               && forall m :: 0 <= m < n ==> !Agreed(past[..m], bound);
      LastBacks(events, at, n, key, threshold, bound);
      AcceptedIffBacked(events[at[n - 1]], key, threshold, "");
    }
  }

  lemma LastBacks(events: seq<GateEvent>, at: seq<nat>, n: nat, key: Key, threshold: real, bound: nat)
    requires 0 < n <= |at| && (forall i :: 0 <= i < |at| ==> at[i] < |events|) && bound >= 1
    requires BackedUpTo(events, at, n, key, threshold, bound)
    ensures events[at[n - 1]].Predicted?
  {
    var name :| AllBack(events, at, n, bound, key, threshold, name);
  }
}
