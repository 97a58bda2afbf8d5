/** One invocation of the toggle command (`run`, src/main.ts:11-38): observe
    the device, reconcile the persisted state, and in an interactive launch
    toggle the device and re-observe once in the background. */
module Toggle {
  import opened Wrappers
  import opened Effects
  import opened Text
  import opened Listing
  import opened Retry

  /** Raycast's launch types. */
  datatype LaunchType = UserInitiated | Background

  const LIST_FAILURE := "Failed to get device list via VirtualHere Client"
  /** Delay between issuing a toggle and re-observing. */
  const SETTLE_MS: nat := 1000

  /** The trimmed output of the LIST calls numbered `base`, `base + 1`, ...:
      what `() => runVirtualHereCommand("LIST")` returns on its k-th call. */
  function Replies(env: nat -> string, base: nat): nat -> string {
    (k: nat) => Reply(env, base, k)
  }

  /** The trimmed output of LIST call number `base + k`. */
  function Reply(env: nat -> string, base: nat, k: nat): string {
    Trim(env(base + k))
  }

  /** What `getDevice` sees and does when its first LIST call is number `base`. */
  datatype Observation = Observation(device: Device, calls: nat, trace: seq<Event>)

  function Query(env: nat -> string, base: nat): Observation {
    var replies := Replies(env, base);
    Observation(
      DeviceFrom(Outcome(replies, IsValidListing)),
      Calls(replies, IsValidListing),
      PollTrace(replies, IsValidListing, LIST_FAILURE))
  }

  /** Everything an invocation can change: LIST calls made so far, the
      persisted `"state"` slot (None while unset), the toggle commands issued,
      and the UI events and delays, in order. */
  datatype Snapshot = Snapshot(listCalls: nat, storage: Option<State>, commands: seq<string>, trace: seq<Event>)

  /** Heads-up message on a state change: the device name and the lower-cased token. */
  function HudMessage(current: State): string {
    DEVICE_NAME + " " + ToLower(current.Token())
  }

  /** Lines 17-21: write the slot, show the HUD and update the subtitle, only on a change. */
  function Reconcile(s: Snapshot, current: State): Snapshot {
    if s.storage != Some(current) then
      s.(storage := Some(current),
         trace := s.trace + [Hud(HudMessage(current)), Subtitle(Capitalize(current.Token()))])
    else s
  }

  /** The state a toggle aims for. */
  function NextState(current: State): State {
    if current == State.Connected then State.Disconnected else State.Connected
  }

  /** The command sent to the client to move a present device to the other state. */
  function ToggleCommand(device: Device): string
    requires !device.Unavailable?
  {
    (if NextState(device.Status()) == State.Connected then "USE" else "STOP USING") + "," + device.address
  }

  function ToggleTitle(next: State): string {
    if next == State.Connected then "Connecting Wooting 60HE+..." else "Disconnecting Wooting 60HE+..."
  }

  /** Lines 12-21: observe the device and reconcile the slot with what was seen. */
  function Reconciled(env: nat -> string, s: Snapshot): Snapshot {
    var q := Query(env, s.listCalls);
    Reconcile(Observed(s, q), q.device.Status())
  }

  /** `run(launchType)`, as a function of the state before it. The re-entrant
      call `run(Background)` of line 37 is the second `Reconciled`. */
  function Invocation(env: nat -> string, launchType: LaunchType, s: Snapshot): Snapshot {
    var device := Query(env, s.listCalls).device;
    var reconciled := Reconciled(env, s);
    if launchType == Background || device.Unavailable? then reconciled
    else Reconciled(env, Flipped(reconciled, device))
  }

  /** Line 12: the LIST calls and the events of `getDevice` appended. */
  function Observed(s: Snapshot, q: Observation): Snapshot {
    s.(listCalls := s.listCalls + q.calls, trace := s.trace + q.trace)
  }

  /** An interactive invocation that finds the device present toggles it and
      then runs once more in the background. */
  lemma InvocationOfPresentDevice(env: nat -> string, s: Snapshot)
    requires !Query(env, s.listCalls).device.Unavailable?
    ensures Invocation(env, UserInitiated, s) ==
      Invocation(env, Background, Flipped(Reconciled(env, s), Query(env, s.listCalls).device))
  {
  }

  /** A background invocation observes and reconciles, nothing more. */
  lemma InvocationInBackground(env: nat -> string, s: Snapshot)
    ensures var q := Query(env, s.listCalls);
      Invocation(env, Background, s) == Reconcile(Observed(s, q), q.device.Status())
  {
  }

  /** The command texts of line 29. */
  lemma ToggleCommandText(device: Device)
    requires !device.Unavailable?
    ensures device.Connected? ==> ToggleCommand(device) == "STOP USING," + device.address
    ensures device.Disconnected? ==> ToggleCommand(device) == "USE," + device.address
  {
    if device.Connected? {
      assert "STOP USING" + "," == "STOP USING,";
    } else {
      assert "USE" + "," == "USE,";
    }
  }

  /** Lines 27-35: the opposite command issued, the progress toast shown, the settle delay waited. */
  function Flipped(s: Snapshot, device: Device): Snapshot
    requires !device.Unavailable?
  {
    s.(commands := s.commands + [ToggleCommand(device)],
       trace := s.trace + [Command(ToggleCommand(device)), Toast(ToggleTitle(NextState(device.Status())), Animated), Sleep(SETTLE_MS)])
  }

  // ---------------------------------------------------------------------
  // Properties of one invocation
  // ---------------------------------------------------------------------

  /** A background invocation only observes: it issues no command. */
  lemma BackgroundIssuesNoCommand(env: nat -> string, s: Snapshot)
    ensures Invocation(env, Background, s).commands == s.commands
  {
  }

  /** An invocation issues at most one toggle command, appended to the log. */
  lemma AtMostOneToggle(env: nat -> string, launchType: LaunchType, s: Snapshot)
    ensures var t := Invocation(env, launchType, s);
      && |s.commands| <= |t.commands| <= |s.commands| + 1
      && t.commands[..|s.commands|] == s.commands
  {
    var q := Query(env, s.listCalls);
    if launchType == UserInitiated && !q.device.Unavailable? {
      InvocationOfPresentDevice(env, s);
      BackgroundIssuesNoCommand(env, Flipped(Reconciled(env, s), q.device));
    }
  }

  /** Interactively, a connected device gets exactly `STOP USING,<addr>`, a
      disconnected one exactly `USE,<addr>`, an unavailable one nothing. */
  lemma InteractiveToggleCommand(env: nat -> string, s: Snapshot)
    ensures var d := Query(env, s.listCalls).device;
      var t := Invocation(env, UserInitiated, s);
      && (d.Connected? ==> t.commands == s.commands + ["STOP USING," + d.address])
      && (d.Disconnected? ==> t.commands == s.commands + ["USE," + d.address])
      && (d.Unavailable? ==> t.commands == s.commands)
  {
    var q := Query(env, s.listCalls);
    if !q.device.Unavailable? {
      InvocationOfPresentDevice(env, s);
      BackgroundIssuesNoCommand(env, Flipped(Reconciled(env, s), q.device));
      ToggleCommandText(q.device);
    }
  }

  /** Two background invocations in a row issue no command. */
  lemma TwoBackgroundRunsIssueNothing(env: nat -> string, s: Snapshot)
    ensures Invocation(env, Background, Invocation(env, Background, s)).commands == s.commands
  {
    BackgroundIssuesNoCommand(env, s);
    BackgroundIssuesNoCommand(env, Invocation(env, Background, s));
  }

  /** The slot is written, and the HUD and subtitle shown, only when it held
      a different state; afterwards it holds the current state. */
  lemma ReconcileWritesOnlyOnChange(s: Snapshot, current: State)
    ensures var t := Reconcile(s, current);
      && t.storage == Some(current)
      && t.listCalls == s.listCalls && t.commands == s.commands
      && (s.storage == Some(current) ==> t.trace == s.trace)
      && (s.storage != Some(current) ==>
            t.trace == s.trace + [Hud(HudMessage(current)), Subtitle(Capitalize(current.Token()))])
  {
  }

  /** One observation leaves the slot holding the state observed, after the
      LIST calls of that observation. */
  lemma ReconciledSlot(env: nat -> string, s: Snapshot)
    ensures var q := Query(env, s.listCalls);
      var t := Reconciled(env, s);
      t.storage == Some(q.device.Status()) && t.listCalls == s.listCalls + q.calls
  {
    var q := Query(env, s.listCalls);
    ReconcileWritesOnlyOnChange(Observed(s, q), q.device.Status());
  }

  /** Without a toggle, the slot ends with the state of the one observation. */
  lemma SlotAfterObservingOnly(env: nat -> string, launchType: LaunchType, s: Snapshot)
    requires launchType == Background || Query(env, s.listCalls).device.Unavailable?
    ensures var q := Query(env, s.listCalls);
      var t := Invocation(env, launchType, s);
      t.storage == Some(q.device.Status()) && t.listCalls == s.listCalls + q.calls
  {
    ReconciledSlot(env, s);
  }

  /** After a toggle, the slot ends with the state of the background re-check,
      whose LIST calls follow those of the first observation. */
  lemma SlotAfterToggle(env: nat -> string, s: Snapshot)
    requires !Query(env, s.listCalls).device.Unavailable?
    ensures var q := Query(env, s.listCalls);
      var f := Flipped(Reconciled(env, s), q.device);
      var q2 := Query(env, f.listCalls);
      var t := Invocation(env, UserInitiated, s);
      && f.listCalls == s.listCalls + q.calls
      && t.storage == Some(q2.device.Status()) && t.listCalls == f.listCalls + q2.calls
  {
    var q := Query(env, s.listCalls);
    ReconciledSlot(env, s);
    ReconciledSlot(env, Flipped(Reconciled(env, s), q.device));
  }

  /** An interactive toggle sends its command after the first observation
      and its HUD and subtitle, then shows the progress toast, waits, and only
      then starts the LIST calls of the re-check. */
  lemma ToggleTraceOrder(env: nat -> string, s: Snapshot)
    requires !Query(env, s.listCalls).device.Unavailable?
    ensures var d := Query(env, s.listCalls).device;
      var r := Reconciled(env, s);
      var f := Flipped(r, d);
      var q2 := Query(env, f.listCalls);
      var t := Invocation(env, UserInitiated, s);
      && f.trace == r.trace + [Command(ToggleCommand(d)), Toast(ToggleTitle(NextState(d.Status())), Animated), Sleep(SETTLE_MS)]
      && |f.trace| + |q2.trace| <= |t.trace|
      && t.trace[..|f.trace| + |q2.trace|] == f.trace + q2.trace
  {
    var d := Query(env, s.listCalls).device;
    var f := Flipped(Reconciled(env, s), d);
    var q2 := Query(env, f.listCalls);
    ReconcileWritesOnlyOnChange(Observed(f, q2), q2.device.Status());
  }

  /** The subtitles the command shows for each state. */
  lemma SubtitleOfUnavailable()
    ensures Capitalize(State.Unavailable.Token()) == "Unavailable"
  {
    assert ToLower("NAVAILABLE") == "navailable";
  }

  lemma SubtitleOfConnected()
    ensures Capitalize(State.Connected.Token()) == "Connected"
  {
    assert ToLower("ONNECTED") == "onnected";
  }

  lemma SubtitleOfDisconnected()
    ensures Capitalize(State.Disconnected.Token()) == "Disconnected"
  {
    assert ToLower("ISCONNECTED") == "isconnected";
  }

  /** The heads-up messages the command shows for each state. */
  lemma HudLabels()
    ensures HudMessage(State.Connected) == "Wooting 60HE+ connected"
    ensures HudMessage(State.Disconnected) == "Wooting 60HE+ disconnected"
    ensures HudMessage(State.Unavailable) == "Wooting 60HE+ unavailable"
  {
  }

  // ---------------------------------------------------------------------
  // Properties of one observation
  // ---------------------------------------------------------------------

  /** The device is parsed from the first LIST reply that is a complete
      listing, and the polling stops right after it. */
  lemma QueryParsesFirstValidReply(env: nat -> string, base: nat, k: nat)
    requires k <= MAX_RETRIES
    requires IsValidListing(Reply(env, base, k))
    requires forall j :: 0 <= j < k ==> !IsValidListing(Reply(env, base, j))
    ensures Query(env, base).device == ParseListing(Reply(env, base, k))
    ensures Query(env, base).calls == k + 1
    ensures Toast(LIST_FAILURE, Failure) !in Query(env, base).trace
  {
    var replies := Replies(env, base);
    assert replies(k) == Reply(env, base, k);
    assert forall j :: 0 <= j < k ==> replies(j) == Reply(env, base, j);
    OutcomeIsFirstSatisfying(replies, IsValidListing);
    PollTraceToast(replies, IsValidListing, LIST_FAILURE);
  }

  /** Six LIST replies that are all incomplete make the device UNAVAILABLE,
      after six calls, with the failure toast last. */
  lemma QueryGivesUp(env: nat -> string, base: nat)
    requires forall j :: 0 <= j <= MAX_RETRIES ==> !IsValidListing(Reply(env, base, j))
    ensures Query(env, base).device == Device.Unavailable
    ensures Query(env, base).calls == MAX_RETRIES + 1
    ensures var t := Query(env, base).trace; t[|t| - 1] == Toast(LIST_FAILURE, Failure)
  {
    var replies := Replies(env, base);
    assert forall j :: 0 <= j <= MAX_RETRIES ==> replies(j) == Reply(env, base, j);
    OutcomeIsFirstSatisfying(replies, IsValidListing);
    PollTraceToast(replies, IsValidListing, LIST_FAILURE);
  }

  /** With a client that keeps answering the same complete listing, a second
      background run changes nothing but one more LIST call. */
  lemma BackgroundRerunIsQuiet(env: nat -> string, s: Snapshot)
    requires forall k :: k >= s.listCalls ==> env(k) == env(s.listCalls)
    requires IsValidListing(Reply(env, s.listCalls, 0))
    ensures var t1 := Invocation(env, Background, s);
      var t2 := Invocation(env, Background, t1);
      && t2.storage == t1.storage
      && t2.commands == s.commands
      && t2.trace == t1.trace + [Attempt]
      && t2.listCalls == t1.listCalls + 1
  {
    var b := s.listCalls;
    QueryParsesFirstValidReply(env, b, 0);
    QueryTraceOfFirstValid(env, b);
    var t1 := Invocation(env, Background, s);
    assert t1.listCalls == b + 1;
    assert env(b + 1 + 0) == env(b);
    QueryParsesFirstValidReply(env, b + 1, 0);
    QueryTraceOfFirstValid(env, b + 1);
  }

  /** A complete first reply costs exactly one call and no other event. */
  lemma QueryTraceOfFirstValid(env: nat -> string, base: nat)
    requires IsValidListing(Reply(env, base, 0))
    ensures Query(env, base).trace == [Attempt]
  {
    var replies := Replies(env, base);
    assert replies(0) == Reply(env, base, 0);
    assert Calls(replies, IsValidListing) == 1;
  }

  /** The command's state: the persisted slot, and the logs of what it did.
      `env(n)` is the raw output of the n-th LIST call the client answers. */
  class Controller {
    const env: nat -> string
    var listCalls: nat
    var storage: Option<State>
    var commands: seq<string>
    var trace: seq<Event>

    function Snap(): Snapshot
      reads this
    {
      Snapshot(listCalls, storage, commands, trace)
    }

    constructor (env: nat -> string, stored: Option<State>)
      ensures this.env == env
      ensures Snap() == Snapshot(0, stored, [], [])
    {
      this.env := env;
      listCalls := 0;
      storage := stored;
      commands := [];
      trace := [];
    }

    /** `getDevice` (src/main.ts:73-108). */
    method GetDevice() returns (device: Device)
      modifies this`listCalls, this`trace
      ensures device == Query(env, old(listCalls)).device
      ensures listCalls == old(listCalls) + Query(env, old(listCalls)).calls
      ensures trace == old(trace) + Query(env, old(listCalls)).trace
    {
      var result, calls, polled := TryUntil(Replies(env, listCalls), IsValidListing, LIST_FAILURE);
      listCalls := listCalls + calls;
      trace := trace + polled;
      if result.None? {
        device := Device.Unavailable;
        return;
      }
      device := ParseListing(result.value);
    }

    /** Lines 14-21: compare the slot with the state just observed and
        record a change. */
    method RecordState(currentState: State)
      modifies this`storage, this`trace
      ensures Snap() == Reconcile(old(Snap()), currentState)
    {
      var previousState := storage;
      if previousState != Some(currentState) {
        storage := Some(currentState);
        trace := trace + [Hud(HudMessage(currentState))];
        trace := trace + [Subtitle(Capitalize(currentState.Token()))];
      }
    }

    /** Lines 27-35: issue the opposite command, show the progress toast, wait. */
    method Flip(device: Device)
      requires !device.Unavailable?
      modifies this`commands, this`trace
      ensures Snap() == Flipped(old(Snap()), device)
    {
      var currentState := device.Status();
      var nextState := if currentState == State.Connected then State.Disconnected else State.Connected;
      var command := if nextState == State.Connected then "USE" else "STOP USING";
      var address := device.Address().value;
      commands := commands + [command + "," + address];
      trace := trace + [Command(command + "," + address)];
      trace := trace + [Toast(ToggleTitle(nextState), Animated)];
      trace := trace + [Sleep(SETTLE_MS)];
    }

    /** `run(launchType)` (src/main.ts:11-38). */
    method Run(launchType: LaunchType)
      modifies this
      decreases if launchType == UserInitiated then 1 else 0
      ensures Snap() == Invocation(env, launchType, old(Snap()))
    {
      ghost var before := Snap();
      ghost var q := Query(env, before.listCalls);
      var device := GetDevice();
      ghost var observed := Observed(before, q);
      assert Snap() == observed;
      var currentState := device.Status();
      RecordState(currentState);
      ghost var reconciled := Reconcile(observed, q.device.Status());
      assert Snap() == reconciled;
      if launchType == Background {
        assert Invocation(env, launchType, before) == reconciled;
        return;
      }
      if currentState == State.Unavailable {
        assert Invocation(env, launchType, before) == reconciled;
        return;
      }
      Flip(device);
      assert Snap() == Flipped(reconciled, q.device);
      InvocationOfPresentDevice(env, before);
      Run(Background);
    }
  }
}
