/** The life of one instance as a state machine on values: requests, passes of the instance loop, start and stop. */
module Lifecycle {
  import opened Types

  /** The module's own automaton. */
  datatype Mode = Disabled | Enabling | Enabled | Disabling

  /** The thread of the loop, from the outside. */
  datatype Thread = Thread(
    /** How often the owner was told that the instance stopped. */
    callbacks: nat,
    /** There is a thread of the loop that nobody has joined. */
    joinable: bool,
    /** Such a thread was dropped for a new one, which ends the process: what a run has after that does not happen. */
    terminated: bool)

  datatype Core = Core(
    isStarted: bool,
    isStopped: bool,
    /** The instance loop runs. */
    looping: bool,
    stopRequested: bool,
    moduleActive: bool,
    enableRequested: bool,
    disableRequested: bool,
    exitWhenEnableFail: bool,
    mode: Mode,
    dispatcherAlive: bool,
    /** Discovery runs and announces this state; what it announced so far. */
    announcing: bool,
    selfState: ModuleState,
    announced: seq<ModuleState>,
    thread: Thread)

  /** A pass is given what it finds: whether the dependencies are satisfied, whether the module's id is unique, and
      whether the module's own enable function succeeds. */
  datatype Event =
    | Start(autoEnable: bool, exitWhenEnableFail: bool, dispatcherStarts: bool, discoveryStarts: bool, unique: bool)
    | Stop
    | RequestEnable | RequestDisable | RequestStop
    | Pass(dependencies: bool, unique: bool, succeeds: bool)
    | Finish
    | Join
    | Beat

  const INITIAL := Core(false, true, false, false, false, false, false, false, Disabled, false, false, Dead, [],
                       Thread(0, false, false))

  function Announce(c: Core): Core {
    if c.announcing then c.(announced := c.announced + [c.selfState]) else c
  }

  /** Enabling a module that is not disabled is ignored, and taken as a success. */
  function ModuleEnabled(mode: Mode, succeeds: bool): (Mode, bool) {
    if mode != Disabled then (mode, true) else if succeeds then (Enabled, true) else (Disabled, false)
  }

  function ModuleDisabled(mode: Mode): Mode {
    if mode == Enabled then Disabled else mode
  }

  function EnableModule(c: Core, succeeds: bool): (Core, bool) {
    if c.moduleActive then (c, false)
    else
      var (mode, ok) := ModuleEnabled(c.mode, succeeds);
      if ok then (Announce(c.(mode := mode, dispatcherAlive := true, moduleActive := true, selfState := Active)), true)
      else (c.(mode := mode, dispatcherAlive := false), false)
  }

  function DisableModule(c: Core): Core {
    if !c.moduleActive then c
    else Announce(c.(moduleActive := false, mode := ModuleDisabled(c.mode), dispatcherAlive := false, selfState := Inactive))
  }

  /** An active module: a disable request is served first, then lost dependencies, then a lost identity. */
  function ActivePass(c: Core, dependencies: bool, unique: bool): Core {
    if c.disableRequested then DisableModule(c.(disableRequested := false))
    else if !dependencies then DisableModule(c).(enableRequested := true)
    else if !unique then c.(stopRequested := true)
    else c
  }

  /** An inactive module is enabled when that was requested and nothing stands against it. */
  function InactivePass(c: Core, dependencies: bool, unique: bool, succeeds: bool): Core {
    if c.enableRequested && dependencies && unique then
      var (r, ok) := EnableModule(c.(enableRequested := false), succeeds);
      if !ok && c.exitWhenEnableFail then r.(stopRequested := true) else r
    else c
  }

  function LoopPass(c: Core, dependencies: bool, unique: bool, succeeds: bool): Core {
    if c.moduleActive then ActivePass(c, dependencies, unique) else InactivePass(c, dependencies, unique, succeeds)
  }

  function Told(t: Thread): Thread {
    t.(callbacks := t.callbacks + 1)
  }

  /** A new thread takes the place of the last one. */
  function Replaced(t: Thread): Thread {
    t.(joinable := true, terminated := t.terminated || t.joinable)
  }

  /** The owner is told, the last announcement goes out, and the services stop. */
  function Depart(c: Core): Core {
    Announce(c.(thread := Told(c.thread), isStarted := false, selfState := Dead))
      .(announcing := false, dispatcherAlive := false, isStopped := true)
  }

  function OnInstanceStopped(c: Core): Core {
    if c.isStarted then Depart(DisableModule(c)) else c
  }

  /** The first announcement, and the loop. */
  function Launch(c: Core, autoEnable: bool, exit: bool): Core {
    Announce(c.(selfState := Inactive))
      .(exitWhenEnableFail := exit, enableRequested := autoEnable, stopRequested := false, looping := true, isStarted := true,
        thread := Replaced(c.thread))
  }

  function StartInstance(c: Core, e: Event): Core
    requires e.Start?
  {
    if c.isStarted then c
    else if !e.dispatcherStarts then c.(isStopped := false)
    else if !e.discoveryStarts then c.(isStopped := false, dispatcherAlive := false)
    else Launch(c.(isStopped := false, announcing := true), e.autoEnable, e.exitWhenEnableFail)
  }

  function Step(c: Core, e: Event): Core {
    match e
    case Start(_, _, _, _, _) => StartInstance(c, e)
    case Stop => if c.isStarted then c.(stopRequested := true) else c.(enableRequested := false)
    case RequestEnable => if c.moduleActive then c else c.(disableRequested := false, enableRequested := true)
    case RequestDisable =>
      if !c.moduleActive && !c.enableRequested then c else c.(enableRequested := false, disableRequested := true)
    case RequestStop =>
      if !c.isStarted && !c.enableRequested then c else c.(enableRequested := false, stopRequested := true)
    case Pass(dependencies, unique, succeeds) =>
      if c.looping && !c.stopRequested then LoopPass(c, dependencies, unique, succeeds) else c
    case Finish => if c.looping && c.stopRequested then OnInstanceStopped(c.(looping := false)) else c
    case Join => if c.looping then c else c.(thread := c.thread.(joinable := false))
    case Beat => Announce(c)
  }

  function Run(es: seq<Event>): Core {
    if es == [] then INITIAL else Step(Run(es[..|es| - 1]), es[|es| - 1])
  }

  // ---- Agreement ----

  /** The four views of the module agree, and an instance announces exactly while it is started. */
  ghost predicate Agreed(c: Core) {
    && (c.mode == Enabled || c.mode == Disabled)
    && (c.moduleActive <==> c.mode == Enabled)
    && (c.moduleActive <==> c.dispatcherAlive)
    && (c.moduleActive <==> c.selfState == Active)
    && (c.moduleActive ==> c.isStarted)
    && (c.isStarted <==> c.looping) && (c.isStarted <==> c.announcing)
    && c.selfState == (if !c.isStarted then Dead else if c.moduleActive then Active else Inactive)
    && (c.moduleActive ==> !c.enableRequested)
    && (c.isStarted ==> c.thread.joinable)
  }

  /** The last announcement is the current state; a stopped instance announced Dead last. */
  ghost predicate LastAnnounced(c: Core) {
    && (c.announced == [] ==> !c.isStarted)
    && (c.announced != [] ==> c.announced[|c.announced| - 1] == c.selfState)
  }

  lemma StepKeepsAgreement(c: Core, e: Event)
    requires Agreed(c) && LastAnnounced(c)
    ensures Agreed(Step(c, e)) && LastAnnounced(Step(c, e))
  {
    hide Step, LoopPass, OnInstanceStopped, StartInstance;
    match e {
      case Start(_, _, _, _, _) =>
        StartKeepsAgreement(c, e);
        StepOfStart(c, e);
      case Pass(dependencies, unique, succeeds) =>
        if c.isStarted { PassKeepsAgreement(c, dependencies, unique, succeeds); }
        PassWhenAsked(c, e);
      case Finish =>
        EndKeepsAgreement(c.(looping := false));
        StepOfFinish(c);
      case _ => OtherKeepsAgreement(c, e);
    }
  }

  lemma OtherKeepsAgreement(c: Core, e: Event)
    requires Agreed(c) && LastAnnounced(c) && !e.Start? && !e.Pass? && !e.Finish?
    ensures Agreed(Step(c, e)) && LastAnnounced(Step(c, e))
  {
    hide LoopPass, OnInstanceStopped, StartInstance, Announce;
    AnnounceOnce(c);
  }

  lemma StartKeepsAgreement(c: Core, e: Event)
    requires Agreed(c) && LastAnnounced(c) && e.Start?
    ensures Agreed(StartInstance(c, e)) && LastAnnounced(StartInstance(c, e))
  {
    hide StartInstance, Launch;
    StartCases(c, e);
    if Effective(c, e) {
      LaunchAgrees(c.(isStopped := false, announcing := true), e.autoEnable, e.exitWhenEnableFail);
    }
  }

  lemma LaunchAgrees(c: Core, autoEnable: bool, exit: bool)
    requires c.announcing && c.mode == Disabled && !c.moduleActive && !c.dispatcherAlive
    ensures Agreed(Launch(c, autoEnable, exit)) && LastAnnounced(Launch(c, autoEnable, exit))
  {
  }

  lemma EndKeepsAgreement(c: Core)
    requires Agreed(c.(looping := c.isStarted)) && LastAnnounced(c) && !c.looping
    ensures Agreed(OnInstanceStopped(c)) && LastAnnounced(OnInstanceStopped(c))
  {
  }

  lemma PassKeepsAgreement(c: Core, dependencies: bool, unique: bool, succeeds: bool)
    requires Agreed(c) && LastAnnounced(c) && c.isStarted
    ensures Agreed(LoopPass(c, dependencies, unique, succeeds))
    ensures LastAnnounced(LoopPass(c, dependencies, unique, succeeds))
  {
  }

  /** In every run, at every boundary between steps: the views agree, and a stopped instance has announced Dead last. */
  lemma {:induction false} ViewsAgree(es: seq<Event>)
    ensures Agreed(Run(es)) && LastAnnounced(Run(es))
  {
    if es != [] {
      ViewsAgree(es[..|es| - 1]);
      StepKeepsAgreement(Run(es[..|es| - 1]), es[|es| - 1]);
    }
  }

  /** The module becomes active exactly in a pass of a running instance that found it requested, with its dependencies
      satisfied and its id unique, and whose enable function succeeded. It becomes inactive exactly in a pass that serves
      a disable request or finds a dependency lost, or when the instance finishes. */
  lemma ActivityChanges(es: seq<Event>, e: Event)
    ensures var c := Run(es);
            (!c.moduleActive && Step(c, e).moduleActive)
            <==> (e.Pass? && c.isStarted && !c.stopRequested && !c.moduleActive && c.enableRequested && e.dependencies
                  && e.unique && e.succeeds)
    ensures var c := Run(es);
            (c.moduleActive && !Step(c, e).moduleActive)
            <==> (c.moduleActive && ((e.Pass? && !c.stopRequested && (c.disableRequested || !e.dependencies))
                                     || (e.Finish? && c.stopRequested)))
  {
    ViewsAgree(es);
    hide Run;
  }

  /** What a listener hears: after Dead comes Inactive, between Inactive and Active only single steps, and Dead is only
      followed by a new start. */
  ghost predicate Follows(earlier: ModuleState, later: ModuleState) {
    || earlier == later
    || (earlier == Dead && later == Inactive)
    || (earlier == Inactive && (later == Active || later == Dead))
    || (earlier == Active && later == Inactive)
  }

  ghost predicate Audible(c: Core) {
    Stepwise(c.announced)
  }

  ghost predicate Stepwise(states: seq<ModuleState>) {
    forall i :: 0 < i < |states| ==> Follows(states[i - 1], states[i])
  }

  lemma StepIsAudible(c: Core, e: Event)
    requires Agreed(c) && LastAnnounced(c) && Audible(c) && (c.announced == [] ==> c.selfState == Dead)
    ensures Audible(Step(c, e))
  {
    hide LoopPass, OnInstanceStopped, StartInstance;
    match e {
      case Start(_, _, _, _, _) => StartIsAudible(c, e);
      case Pass(dependencies, unique, succeeds) => PassIsAudible(c, dependencies, unique, succeeds);
      case Finish => StopIsAudible(c.(looping := false));
      case _ =>
    }
  }

  lemma AnnounceIsAudible(c: Core)
    requires Audible(c) && (c.announced == [] || Follows(c.announced[|c.announced| - 1], c.selfState))
    ensures Audible(Announce(c))
  {
  }

  lemma StartIsAudible(c: Core, e: Event)
    requires e.Start? && Agreed(c) && LastAnnounced(c) && Audible(c)
    ensures Audible(StartInstance(c, e))
  {
    hide Stepwise;
    if !c.isStarted { AnnounceIsAudible(c.(isStopped := false, announcing := true, selfState := Inactive)); }
  }

  lemma StopIsAudible(c: Core)
    requires Agreed(c.(looping := c.isStarted)) && LastAnnounced(c) && Audible(c)
    ensures Audible(OnInstanceStopped(c))
  {
    hide Stepwise;
    if c.isStarted {
      if c.moduleActive {
        AnnounceIsAudible(c.(moduleActive := false, mode := ModuleDisabled(c.mode), dispatcherAlive := false,
                             selfState := Inactive));
      }
      var r := DisableModule(c);
      AnnounceIsAudible(r.(thread := Told(r.thread), isStarted := false, selfState := Dead));
    }
  }

  lemma PassIsAudible(c: Core, dependencies: bool, unique: bool, succeeds: bool)
    requires Agreed(c) && LastAnnounced(c) && Audible(c) && (c.announced == [] ==> c.selfState == Dead)
    ensures c.looping ==> Audible(LoopPass(c, dependencies, unique, succeeds))
  {
  }

  lemma {:induction false} AnnouncementsFollow(es: seq<Event>)
    ensures Audible(Run(es))
  {
    if es != [] {
      ViewsAgree(es[..|es| - 1]);
      AnnouncementsFollow(es[..|es| - 1]);
      StepIsAudible(Run(es[..|es| - 1]), es[|es| - 1]);
    }
  }

  predicate Effective(c: Core, e: Event) {
    e.Start? && e.dispatcherStarts && e.discoveryStarts && !c.isStarted
  }

  /** The starts that took effect. */
  function Starts(es: seq<Event>): nat {
    if es == [] then 0
    else
      var before, e := es[..|es| - 1], es[|es| - 1];
      Starts(before) + if Effective(Run(before), e) then 1 else 0
  }

  /** In every run the owner is told of the stop exactly once for each start that took effect, except for one that still
      runs. */
  lemma {:induction false} OneCallbackPerStart(es: seq<Event>)
    ensures Run(es).thread.callbacks + (if Run(es).isStarted then 1 else 0) == Starts(es)
  {
    if es != [] {
      OneCallbackPerStart(es[..|es| - 1]);
      ViewsAgree(es[..|es| - 1]);
      CallbackStep(Run(es[..|es| - 1]), es[|es| - 1]);
      hide Step;
    }
  }

  lemma CallbackStep(c: Core, e: Event)
    requires Agreed(c)
    ensures Step(c, e).thread.callbacks + (if Step(c, e).isStarted then 1 else 0)
         == c.thread.callbacks + (if c.isStarted then 1 else 0)
            + if Effective(c, e) then 1 else 0
    ensures Step(c, e).thread.joinable == if Effective(c, e) then true else if e.Join? && !c.looping then false else c.thread.joinable
    ensures Step(c, e).thread.terminated == (c.thread.terminated || (Effective(c, e) && c.thread.joinable))
  {
    hide Step;
    ThreadAfter(c, e);
  }

  /** The loop is over: it was asked to stop. */
  predicate Ends(c: Core, e: Event) {
    e.Finish? && c.looping && c.stopRequested
  }

  lemma ThreadAfter(c: Core, e: Event)
    ensures Step(c, e).thread == if Effective(c, e) then Replaced(c.thread)
                                 else if e.Join? && !c.looping then c.thread.(joinable := false)
                                 else if Ends(c, e) && c.isStarted then Told(c.thread)
                                 else c.thread
    ensures Step(c, e).isStarted == (Effective(c, e) || (c.isStarted && !Ends(c, e)))
  {
    hide Step, LoopPass, StartInstance, OnInstanceStopped, Replaced, Told;
    match e {
      case Start(_, _, _, _, _) =>
        StartFrame(c, e);
        StepOfStart(c, e);
      case Pass(dependencies, unique, succeeds) =>
        PassFrame(c, dependencies, unique, succeeds);
        StepOfPass(c, e);
      case Finish =>
        StopFrame(c.(looping := false));
        StepOfFinish(c);
      case _ => OtherFrame(c, e);
    }
  }

  lemma StepOfStart(c: Core, e: Event)
    requires e.Start?
    ensures Step(c, e) == StartInstance(c, e)
  {
  }

  lemma StepOfPass(c: Core, e: Event)
    requires e.Pass?
    ensures Step(c, e) == c || Step(c, e) == LoopPass(c, e.dependencies, e.unique, e.succeeds)
  {
  }

  lemma StepOfFinish(c: Core)
    ensures Step(c, Finish) == if Ends(c, Finish) then OnInstanceStopped(c.(looping := false)) else c
  {
  }

  /** The remaining events leave the thread as it is, except that it may be joined. */
  lemma OtherFrame(c: Core, e: Event)
    requires !e.Start? && !e.Pass? && !e.Finish?
    ensures Step(c, e).isStarted == c.isStarted
    ensures Step(c, e).isStopped == c.isStopped && Step(c, e).exitWhenEnableFail == c.exitWhenEnableFail
    ensures Step(c, e).thread == if e.Join? && !c.looping then c.thread.(joinable := false) else c.thread
  {
    hide StartInstance, LoopPass, OnInstanceStopped, Announce;
    AnnounceFrame(c);
    match e {
      case Stop =>
      case RequestEnable =>
      case RequestDisable =>
      case RequestStop =>
      case _ =>
    }
  }

  /** What only starting, stopping and joining change is the same in two states. */
  predicate SameFrame(c: Core, r: Core) {
    && r.thread == c.thread && r.isStarted == c.isStarted
    && r.isStopped == c.isStopped && r.exitWhenEnableFail == c.exitWhenEnableFail
  }

  lemma AnnounceFrame(c: Core)
    ensures SameFrame(c, Announce(c))
  {
  }

  lemma StartFrame(c: Core, e: Event)
    requires e.Start?
    ensures StartInstance(c, e).isStarted == (c.isStarted || (e.dispatcherStarts && e.discoveryStarts))
    ensures StartInstance(c, e).thread == if Effective(c, e) then Replaced(c.thread) else c.thread
    ensures StartInstance(c, e).exitWhenEnableFail == if Effective(c, e) then e.exitWhenEnableFail else c.exitWhenEnableFail
    ensures StartInstance(c, e).isStopped == (c.isStarted && c.isStopped)
  {
    hide StartInstance, Launch, Replaced;
    StartCases(c, e);
    LaunchFrame(c.(isStopped := false, announcing := true), e.autoEnable, e.exitWhenEnableFail);
  }

  lemma StartCases(c: Core, e: Event)
    requires e.Start?
    ensures StartInstance(c, e)
         == if Effective(c, e) then Launch(c.(isStopped := false, announcing := true), e.autoEnable, e.exitWhenEnableFail)
            else c.(isStopped := c.isStarted && c.isStopped,
                    dispatcherAlive := c.dispatcherAlive && (c.isStarted || !e.dispatcherStarts))
  {
    hide Launch;
  }

  lemma LaunchFrame(c: Core, autoEnable: bool, exit: bool)
    ensures Launch(c, autoEnable, exit).isStarted && Launch(c, autoEnable, exit).thread == Replaced(c.thread)
    ensures Launch(c, autoEnable, exit).exitWhenEnableFail == exit && Launch(c, autoEnable, exit).isStopped == c.isStopped
  {
    hide Announce, Replaced;
    AnnounceFrame(c.(selfState := Inactive));
  }

  lemma StopFrame(c: Core)
    ensures OnInstanceStopped(c).thread == if c.isStarted then Told(c.thread) else c.thread
    ensures !OnInstanceStopped(c).isStarted
  {
    hide Announce, DisableModule;
    DisableFrame(c);
    var r := DisableModule(c);
    AnnounceFrame(r.(thread := Told(r.thread), isStarted := false, selfState := Dead));
  }

  lemma DisableFrame(c: Core)
    ensures SameFrame(c, DisableModule(c))
  {
    hide Announce;
    AnnounceFrame(c.(moduleActive := false, mode := ModuleDisabled(c.mode), dispatcherAlive := false, selfState := Inactive));
  }

  lemma EnableFrame(c: Core, succeeds: bool)
    ensures SameFrame(c, EnableModule(c, succeeds).0)
  {
    hide Announce;
    var mode := ModuleEnabled(c.mode, succeeds).0;
    AnnounceFrame(c.(mode := mode, dispatcherAlive := true, moduleActive := true, selfState := Active));
  }

  lemma PassFrame(c: Core, dependencies: bool, unique: bool, succeeds: bool)
    ensures SameFrame(c, LoopPass(c, dependencies, unique, succeeds))
  {
    hide EnableModule, DisableModule;
    DisableFrame(c);
    DisableFrame(c.(disableRequested := false));
    EnableFrame(c.(enableRequested := false), succeeds);
  }

  // ---- The thread of the loop ----

  predicate EffectiveAt(es: seq<Event>, k: int) {
    0 <= k < |es| && Effective(Run(es[..k]), es[k])
  }

  /** Somebody joins the thread after its loop has ended. */
  predicate JoinsAt(es: seq<Event>, k: int) {
    0 <= k < |es| && es[k].Join? && !Run(es[..k]).looping
  }

  predicate NotJoined(es: seq<Event>, j: int, k: int) {
    forall i :: j < i < k ==> !JoinsAt(es, i)
  }

  /** A start at j took effect and its thread was not joined before k. */
  predicate LeftOver(es: seq<Event>, j: int, k: int) {
    j < k && EffectiveAt(es, j) && NotJoined(es, j, k)
  }

  lemma EarlierEvents(es: seq<Event>, n: nat, k: int)
    requires n <= |es| && k < n
    ensures EffectiveAt(es, k) == EffectiveAt(es[..n], k) && JoinsAt(es, k) == JoinsAt(es[..n], k)
  {
    if 0 <= k { assert es[..n][..k] == es[..k]; }
  }

  lemma LeftOverEarlier(es: seq<Event>, n: nat, j: int, k: int)
    requires k <= n <= |es|
    ensures LeftOver(es, j, k) == LeftOver(es[..n], j, k)
  {
    hide EffectiveAt, JoinsAt;
    forall i | i < k
      ensures EffectiveAt(es, i) == EffectiveAt(es[..n], i) && JoinsAt(es, i) == JoinsAt(es[..n], i)
    {
      EarlierEvents(es, n, i);
    }
  }

  /** There is a thread to be joined exactly when the last start that took effect was not followed by a join. */
  lemma {:induction false} JoinableExactly(es: seq<Event>)
    ensures Run(es).thread.joinable <==> exists j :: LeftOver(es, j, |es|)
  {
    hide Step, Effective;
    if es != [] {
      var n := |es| - 1;
      JoinableExactly(es[..n]);
      ViewsAgree(es[..n]);
      hide Agreed, LastAnnounced;
      ThreadStep(es);
    }
  }

  lemma ThreadStep(es: seq<Event>)
    requires es != []
    requires var n := |es| - 1;
             Agreed(Run(es[..n])) && (Run(es[..n]).thread.joinable <==> exists j :: LeftOver(es[..n], j, n))
    ensures Run(es).thread.joinable <==> exists j :: LeftOver(es, j, |es|)
  {
    hide Step, Agreed, Effective, LeftOver;
    var n := |es| - 1;
    CallbackStep(Run(es[..n]), es[n]);
    assert Run(es) == Step(Run(es[..n]), es[n]);
    hide Run;
    forall j
      ensures LeftOver(es, j, |es|) == ((j == n && EffectiveAt(es, n)) || (LeftOver(es[..n], j, n) && !JoinsAt(es, n)))
    {
      LeftOverOneMore(es, j);
    }
    assert LeftOver(es, n, |es|) || !EffectiveAt(es, n);
  }

  lemma LeftOverOneMore(es: seq<Event>, j: int)
    requires es != []
    ensures var n := |es| - 1;
            LeftOver(es, j, |es|) == ((j == n && EffectiveAt(es, n)) || (LeftOver(es[..n], j, n) && !JoinsAt(es, n)))
  {
    hide EffectiveAt, JoinsAt;
    LeftOverEarlier(es, |es| - 1, j, |es| - 1);
  }

  /** In every run: dropping an unjoined thread ends the process exactly when two starts took effect and nobody joined the
      first one's thread in between. */
  lemma {:induction false} TerminatesExactlyWhenNotJoined(es: seq<Event>)
    ensures Run(es).thread.terminated <==> exists j, k :: EffectiveAt(es, k) && LeftOver(es, j, k)
  {
    if es != [] {
      var n := |es| - 1;
      TerminatesExactlyWhenNotJoined(es[..n]);
      ViewsAgree(es[..n]);
      CallbackStep(Run(es[..n]), es[n]);
      JoinableExactly(es[..n]);
      hide Step, Agreed, LastAnnounced, Effective, Run;
      forall j, k | k < n
        ensures (EffectiveAt(es, k) && LeftOver(es, j, k)) == (EffectiveAt(es[..n], k) && LeftOver(es[..n], j, k))
      {
        EarlierEvents(es, n, k);
        LeftOverEarlier(es, n, j, k);
      }
      forall j
        ensures LeftOver(es, j, n) == LeftOver(es[..n], j, n)
      {
        LeftOverEarlier(es, n, j, n);
      }
    }
  }

  /** stopInstance waits for the loop to end and joins its thread: the next start terminates nothing. */
  lemma StopJoins(c: Core)
    requires Agreed(c) && c.isStarted
    ensures var r := Step(Step(Step(c, Stop), Finish), Join);
            !r.isStarted && !r.thread.joinable && r.thread.terminated == c.thread.terminated
  {
    hide OnInstanceStopped;
    StopFrame(c.(stopRequested := true, looping := false));
    LoopEnds(c.(stopRequested := true, looping := false));
  }

  lemma LoopEnds(c: Core)
    ensures OnInstanceStopped(c).looping == c.looping
  {
  }

  // ---- Requests ----

  /** Enabling and disabling are not both requested, and while the module is active enabling is not. */
  ghost predicate OneWish(c: Core) {
    !(c.enableRequested && c.disableRequested)
  }

  /** A step leaves at most one wish exactly when it is not a start with automatic enabling that meets a disable request
      left over from before. */
  lemma StepKeepsOneWish(c: Core, e: Event)
    requires Agreed(c) && OneWish(c)
    ensures OneWish(Step(c, e))
       <==> !(e.Start? && e.autoEnable && e.dispatcherStarts && e.discoveryStarts && !c.isStarted && c.disableRequested)
  {
  }

  // ---- What becomes of the requests ----

  /** The pass of a running instance that was not asked to stop. */
  predicate Passes(c: Core, e: Event) {
    e.Pass? && c.isStarted && !c.stopRequested
  }

  /** An active module with its dependencies and no disable request finds its id taken. */
  predicate LosesIdentity(c: Core, e: Event) {
    Passes(c, e) && c.moduleActive && !c.disableRequested && e.dependencies && !e.unique
  }

  predicate LosesDependencies(c: Core, e: Event) {
    Passes(c, e) && c.moduleActive && !c.disableRequested && !e.dependencies
  }

  /** The pass calls the module's enable function. */
  predicate Tries(c: Core, e: Event) {
    Passes(c, e) && !c.moduleActive && c.enableRequested && e.dependencies && e.unique
  }

  /** What the steps that are more than one assignment do to the three requests. */
  lemma WishesAfter(c: Core, e: Event)
    requires Agreed(c)
    ensures SameWishes(c, Announce(c)) && SameWishes(c, OnInstanceStopped(c.(looping := false)))
    ensures e.Start? ==> var r := StartInstance(c, e);
              && r.stopRequested == (!Effective(c, e) && c.stopRequested) && r.disableRequested == c.disableRequested
              && r.enableRequested == if Effective(c, e) then e.autoEnable else c.enableRequested
    ensures Passes(c, e) ==> var r := LoopPass(c, e.dependencies, e.unique, e.succeeds);
              && r.stopRequested == (LosesIdentity(c, e) || (Tries(c, e) && !e.succeeds && c.exitWhenEnableFail))
              && r.enableRequested == (LosesDependencies(c, e) || (c.enableRequested && !Tries(c, e)))
              && r.disableRequested == (c.disableRequested && !c.moduleActive)
  {
    hide StartInstance, LoopPass, OnInstanceStopped;
    AnnounceOnce(c);
    WishesAfterEnd(c.(looping := false));
    if e.Start? { WishesAfterStart(c, e); }
    if Passes(c, e) { WishesAfterPass(c, e); }
  }

  predicate SameWishes(c: Core, r: Core) {
    r.stopRequested == c.stopRequested && r.enableRequested == c.enableRequested && r.disableRequested == c.disableRequested
  }

  lemma WishesAfterEnd(c: Core)
    ensures SameWishes(c, OnInstanceStopped(c))
  {
    hide DisableModule, Announce;
    DisablingKeepsWishes(c);
    var r := DisableModule(c);
    AnnounceOnce(r.(thread := Told(r.thread), isStarted := false, selfState := Dead));
  }

  lemma DisablingKeepsWishes(c: Core)
    ensures SameWishes(c, DisableModule(c))
  {
  }

  lemma WishesAfterStart(c: Core, e: Event)
    requires e.Start?
    ensures var r := StartInstance(c, e);
            && r.stopRequested == (!Effective(c, e) && c.stopRequested) && r.disableRequested == c.disableRequested
            && r.enableRequested == if Effective(c, e) then e.autoEnable else c.enableRequested
  {
    hide StartInstance, Launch;
    StartCases(c, e);
    LaunchWishes(c.(isStopped := false, announcing := true), e.autoEnable, e.exitWhenEnableFail);
  }

  lemma LaunchWishes(c: Core, autoEnable: bool, exit: bool)
    ensures var r := Launch(c, autoEnable, exit);
            !r.stopRequested && r.disableRequested == c.disableRequested && r.enableRequested == autoEnable
  {
    hide Announce, Replaced;
    AnnounceOnce(c.(selfState := Inactive));
  }

  lemma WishesAfterPass(c: Core, e: Event)
    requires Agreed(c) && Passes(c, e)
    ensures var r := LoopPass(c, e.dependencies, e.unique, e.succeeds);
            && r.stopRequested == (LosesIdentity(c, e) || (Tries(c, e) && !e.succeeds && c.exitWhenEnableFail))
            && r.enableRequested == (LosesDependencies(c, e) || (c.enableRequested && !Tries(c, e)))
            && r.disableRequested == (c.disableRequested && !c.moduleActive)
  {
    hide DisableModule;
    DisablingKeepsWishes(c);
    DisablingKeepsWishes(c.(disableRequested := false));
  }

  /** In every run: an instance comes to be asked to stop exactly by stopInstance while started, by a request while started
      or wished, by a pass that finds the id of an active module taken, or by a failed enabling when that is to end the
      instance. Only a start that takes effect withdraws it. */
  lemma StopIsRequestedExactly(es: seq<Event>, e: Event)
    ensures var c := Run(es);
            (!c.stopRequested && Step(c, e).stopRequested)
            <==> !c.stopRequested && ((e == Stop && c.isStarted)
                                      || (e == RequestStop && (c.isStarted || c.enableRequested))
                                      || LosesIdentity(c, e)
                                      || (Tries(c, e) && !e.succeeds && c.exitWhenEnableFail))
    ensures var c := Run(es);
            (c.stopRequested && !Step(c, e).stopRequested) <==> c.stopRequested && Effective(c, e)
  {
    ViewsAgree(es);
    hide Run, StartInstance, LoopPass, OnInstanceStopped, Announce;
    WishesAfter(Run(es), e);
  }

  /** Enabling comes to be wished exactly by a request while the module is inactive, by a start with automatic enabling that
      takes effect, or by a pass that loses dependencies; it ceases to be exactly by a request to disable or to stop, by
      stopInstance before the start, by a pass that tries to enable, or by a start without automatic enabling. */
  lemma EnablingIsRequestedExactly(es: seq<Event>, e: Event)
    ensures var c := Run(es);
            (!c.enableRequested && Step(c, e).enableRequested)
            <==> !c.enableRequested && ((e == RequestEnable && !c.moduleActive)
                                        || (Effective(c, e) && e.autoEnable)
                                        || LosesDependencies(c, e))
    ensures var c := Run(es);
            (c.enableRequested && !Step(c, e).enableRequested)
            <==> c.enableRequested && (e == RequestDisable || e == RequestStop || (e == Stop && !c.isStarted) || Tries(c, e)
                                       || (Effective(c, e) && !e.autoEnable))
  {
    ViewsAgree(es);
    hide Run, StartInstance, LoopPass, OnInstanceStopped, Announce;
    WishesAfter(Run(es), e);
  }

  /** Disabling comes to be wished exactly by a request while the module is active or wished; the next pass of an active
      module serves it, and a request to enable an inactive one takes it back. */
  lemma DisablingIsRequestedExactly(es: seq<Event>, e: Event)
    ensures var c := Run(es);
            (!c.disableRequested && Step(c, e).disableRequested)
            <==> !c.disableRequested && e == RequestDisable && (c.moduleActive || c.enableRequested)
    ensures var c := Run(es);
            (c.disableRequested && !Step(c, e).disableRequested)
            <==> c.disableRequested && ((e == RequestEnable && !c.moduleActive) || (Passes(c, e) && c.moduleActive))
  {
    ViewsAgree(es);
    hide Run, StartInstance, LoopPass, OnInstanceStopped, Announce;
    WishesAfter(Run(es), e);
  }

  /** An instance runs from a start that takes effect until its loop, asked to stop, has ended; it counts as stopped from then
      until a start is tried. The last start that took effect decides whether a failed enabling ends the instance. */
  lemma RunsExactly(es: seq<Event>, e: Event)
    ensures var c := Run(es);
            Step(c, e).isStarted <==> Effective(c, e) || (c.isStarted && !(e == Finish && c.stopRequested))
    ensures var c := Run(es);
            Step(c, e).exitWhenEnableFail == if Effective(c, e) then e.exitWhenEnableFail else c.exitWhenEnableFail
    ensures var c := Run(es);
            Step(c, e).isStopped == if c.isStarted && e == Finish && c.stopRequested then true
                                    else c.isStopped && !(e.Start? && !c.isStarted)
  {
    ViewsAgree(es);
    hide Run, Step;
    SettingsAfter(Run(es), e);
  }

  lemma SettingsAfter(c: Core, e: Event)
    requires Agreed(c)
    ensures Step(c, e).isStarted <==> Effective(c, e) || (c.isStarted && !(e == Finish && c.stopRequested))
    ensures Step(c, e).exitWhenEnableFail == if Effective(c, e) then e.exitWhenEnableFail else c.exitWhenEnableFail
    ensures Step(c, e).isStopped == if c.isStarted && e == Finish && c.stopRequested then true
                                    else c.isStopped && !(e.Start? && !c.isStarted)
  {
    hide Step, StartInstance, LoopPass, OnInstanceStopped;
    match e {
      case Start(_, _, _, _, _) =>
        StartFrame(c, e);
        StepOfStart(c, e);
      case Pass(dependencies, unique, succeeds) =>
        PassFrame(c, dependencies, unique, succeeds);
        StepOfPass(c, e);
      case Finish =>
        SettingsOfEnd(c.(looping := false));
        StepOfFinish(c);
      case _ => OtherFrame(c, e);
    }
  }

  lemma SettingsOfEnd(c: Core)
    ensures var r := OnInstanceStopped(c);
            !r.isStarted && r.exitWhenEnableFail == c.exitWhenEnableFail && r.isStopped == (c.isStarted || c.isStopped)
  {
    hide Announce, DisableModule, Told;
    DisableFrame(c);
    var r := DisableModule(c);
    AnnounceFrame(r.(thread := Told(r.thread), isStarted := false, selfState := Dead));
  }

  /** The flags of the core, each with what sets and what clears it. */
  datatype Flag = StopRequest | EnableRequest | DisableRequest | ExitOnFail | TriedSince

  predicate IsSet(c: Core, f: Flag) {
    match f
    case StopRequest => c.stopRequested
    case EnableRequest => c.enableRequested
    case DisableRequest => c.disableRequested
    case ExitOnFail => c.exitWhenEnableFail
    case TriedSince => !c.isStopped
  }

  predicate Sets(c: Core, e: Event, f: Flag) {
    match f
    case StopRequest =>
      || (e == Stop && c.isStarted) || (e == RequestStop && (c.isStarted || c.enableRequested))
      || LosesIdentity(c, e) || (Tries(c, e) && !e.succeeds && c.exitWhenEnableFail)
    case EnableRequest =>
      (e == RequestEnable && !c.moduleActive) || (Effective(c, e) && e.autoEnable) || LosesDependencies(c, e)
    case DisableRequest => e == RequestDisable && (c.moduleActive || c.enableRequested)
    case ExitOnFail => Effective(c, e) && e.exitWhenEnableFail
    case TriedSince => e.Start? && !c.isStarted
  }

  predicate Clears(c: Core, e: Event, f: Flag) {
    match f
    case StopRequest => Effective(c, e)
    case EnableRequest =>
      || e == RequestDisable || e == RequestStop || (e == Stop && !c.isStarted) || Tries(c, e)
      || (Effective(c, e) && !e.autoEnable)
    case DisableRequest => (e == RequestEnable && !c.moduleActive) || (Passes(c, e) && c.moduleActive)
    case ExitOnFail => Effective(c, e) && !e.exitWhenEnableFail
    case TriedSince => c.isStarted && e == Finish && c.stopRequested
  }

  /** The flag was set there, and not cleared since. */
  ghost predicate SetSince(es: seq<Event>, f: Flag, k: int) {
    && 0 <= k < |es| && Sets(Run(es[..k]), es[k], f)
    && forall j :: k < j < |es| ==> !Clears(Run(es[..j]), es[j], f)
  }

  lemma SetLater(es: seq<Event>, f: Flag, k: int)
    requires es != []
    ensures var n := |es| - 1;
            SetSince(es, f, k) <==> if k == n then Sets(Run(es[..n]), es[n], f)
                                    else SetSince(es[..n], f, k) && !Clears(Run(es[..n]), es[n], f)
  {
    hide Run, Sets, Clears;
    var n := |es| - 1;
    assert forall j :: 0 <= j < n ==> es[..n][..j] == es[..j];
  }

  lemma FlagStep(es: seq<Event>, e: Event, f: Flag)
    ensures IsSet(Step(Run(es), e), f) <==> Sets(Run(es), e, f) || (IsSet(Run(es), f) && !Clears(Run(es), e, f))
  {
    hide Run, Step;
    match f {
      case StopRequest => StopIsRequestedExactly(es, e);
      case EnableRequest => EnablingIsRequestedExactly(es, e);
      case DisableRequest => DisablingIsRequestedExactly(es, e);
      case _ => RunsExactly(es, e);
    }
  }

  /** In every run a request stands, and a start was tried since the instance last stopped, exactly when it was set at some
      step and not cleared since. */
  lemma {:induction false} FlagsFollowHistory(es: seq<Event>, f: Flag)
    ensures IsSet(Run(es), f) <==> exists k :: SetSince(es, f, k)
  {
    hide Step, Sets, Clears;
    if es == [] {
      assert forall k :: !SetSince(es, f, k);
    } else {
      var n := |es| - 1;
      FlagsFollowHistory(es[..n], f);
      FlagStep(es[..n], es[n], f);
      assert Run(es) == Step(Run(es[..n]), es[n]);
      hide Run, IsSet;
      forall k
        ensures SetSince(es, f, k) <==> if k == n then Sets(Run(es[..n]), es[n], f)
                                        else SetSince(es[..n], f, k) && !Clears(Run(es[..n]), es[n], f)
        ensures SetSince(es[..n], f, k) ==> k < n
      {
        SetLater(es, f, k);
      }
      hide SetSince;
      if k :| SetSince(es[..n], f, k) { assert !Clears(Run(es[..n]), es[n], f) ==> SetSince(es, f, k); }
      assert Sets(Run(es[..n]), es[n], f) ==> SetSince(es, f, n);
    }
  }

  /** What is announced when the state changes: one step at a time, so an active instance that ends is inactive first. */
  function Trail(before: ModuleState, after: ModuleState): seq<ModuleState> {
    if before == after then [] else if before == Active && after == Dead then [Inactive, Dead] else [after]
  }

  /** Every change of state is announced when it happens, and every beat of a started instance repeats the current one;
      nothing else is announced. */
  lemma ChangesAreAnnounced(es: seq<Event>, e: Event)
    ensures var c := Run(es);
            var r := Step(c, e);
            r.announced == c.announced + if e == Beat && c.isStarted then [c.selfState] else Trail(c.selfState, r.selfState)
  {
    ViewsAgree(es);
    hide Run;
    AnnouncedByStep(Run(es), e);
  }

  lemma AnnouncedByStep(c: Core, e: Event)
    requires Agreed(c)
    ensures Step(c, e).announced
         == c.announced + if e == Beat && c.isStarted then [c.selfState] else Trail(c.selfState, Step(c, e).selfState)
  {
    hide StartInstance, LoopPass, OnInstanceStopped, Step;
    assert c.announced + [] == c.announced;
    match e {
      case Start(_, _, _, _, _) =>
        AnnouncedByStart(c, e);
        StepOfStart(c, e);
      case Pass(dependencies, unique, succeeds) =>
        if Passes(c, e) { AnnouncedByPass(c, dependencies, unique, succeeds); }
        PassWhenAsked(c, e);
      case Finish =>
        AnnouncedByEnd(c.(looping := false));
        StepOfFinish(c);
      case _ => AnnouncedByOther(c, e);
    }
  }

  lemma PassWhenAsked(c: Core, e: Event)
    requires e.Pass? && Agreed(c)
    ensures Step(c, e) == if Passes(c, e) then LoopPass(c, e.dependencies, e.unique, e.succeeds) else c
  {
    hide LoopPass;
  }

  /** Requests and joining announce nothing, and a beat what the state is. */
  lemma AnnouncedByOther(c: Core, e: Event)
    requires Agreed(c) && !e.Start? && !e.Pass? && !e.Finish?
    ensures Step(c, e).selfState == c.selfState
    ensures Step(c, e).announced == c.announced + if e == Beat && c.isStarted then [c.selfState] else []
  {
    hide StartInstance, LoopPass, OnInstanceStopped, Announce;
    AnnounceOnce(c);
    assert c.announced + [] == c.announced;
  }

  lemma AnnounceOnce(c: Core)
    ensures Announce(c) == c.(announced := if c.announcing then c.announced + [c.selfState] else c.announced)
  {
  }

  lemma AnnouncedByStart(c: Core, e: Event)
    requires Agreed(c) && e.Start?
    ensures StartInstance(c, e).announced == c.announced + Trail(c.selfState, StartInstance(c, e).selfState)
  {
  }

  lemma DisablingAnnounces(c: Core)
    requires c.moduleActive && c.announcing
    ensures DisableModule(c).announced == c.announced + [Inactive] && DisableModule(c).selfState == Inactive
    ensures DisableModule(c).announcing
  {
  }

  lemma AnnouncedByPass(c: Core, dependencies: bool, unique: bool, succeeds: bool)
    requires Agreed(c) && c.isStarted
    ensures var r := LoopPass(c, dependencies, unique, succeeds);
            r.announced == c.announced + Trail(c.selfState, r.selfState)
  {
    hide DisableModule;
    if c.moduleActive {
      DisablingAnnounces(c);
      DisablingAnnounces(c.(disableRequested := false));
    }
  }

  lemma AnnouncedByEnd(c: Core)
    requires Agreed(c.(looping := c.isStarted))
    ensures OnInstanceStopped(c).announced == c.announced + Trail(c.selfState, OnInstanceStopped(c).selfState)
  {
    hide DisableModule;
    assert c.announced + [Inactive] + [Dead] == c.announced + [Inactive, Dead];
    if c.moduleActive { DisablingAnnounces(c); } else { assert DisableModule(c) == c by { NothingToDisable(c); } }
  }

  lemma NothingToDisable(c: Core)
    requires !c.moduleActive
    ensures DisableModule(c) == c
  {
  }

  /** A disable request left over at a stop strikes after the next start, whatever the next passes find: the module that
      one pass enables is not active after another. */
  lemma LeftOverDisableStrikes(c: Core, exit: bool, unique: bool, dependencies: bool, stillUnique: bool, succeeds: bool)
    requires Agreed(c) && !c.isStarted && c.disableRequested
    ensures var enabled := Step(Step(c, Start(true, exit, true, true, unique)), Pass(true, true, true));
            enabled.moduleActive && !Step(enabled, Pass(dependencies, stillUnique, succeeds)).moduleActive
  {
  }

  /** There is such a request: one that stopInstance overtakes. */
  lemma DisableRequestSurvivesStop()
    ensures var start := Start(true, false, true, true, true);
            var c := Step(Step(Step(Step(Step(INITIAL, start), Pass(true, true, true)), RequestDisable), Stop), Finish);
            Agreed(c) && !c.isStarted && c.disableRequested
  {
    var start := Start(true, false, true, true, true);
    var c1 := Step(INITIAL, start);
    var c2 := Step(c1, Pass(true, true, true));
    assert c2.moduleActive && c2.isStarted;
    var c3 := Step(Step(Step(c2, RequestDisable), Stop), Finish);
    assert !c3.isStarted;
  }

  /** Starting an instance whose id is not unique asks for a stop and takes that back at once: the instance runs. It is
      not enabled, though, by any pass that still finds the id taken. */
  lemma NotUniqueAtStartStillRuns(c: Core, autoEnable: bool, exit: bool, dependencies: bool, succeeds: bool)
    requires Agreed(c) && !c.isStarted
    ensures var r := Step(c, Start(autoEnable, exit, true, true, false));
            && r.isStarted && r.looping && !r.stopRequested
            && !Step(r, Pass(dependencies, false, succeeds)).moduleActive
  {
  }

  /** A finished instance can be started again and then behaves as a new one, except for a disable request left over. If
      nobody joined the thread of its loop, though, the start ends the process. */
  lemma RestartIsFresh(c: Core, e: Event)
    requires Agreed(c) && !c.isStarted && e.Start? && e.dispatcherStarts && e.discoveryStarts
    ensures var r := Step(c, e);
            r == Step(INITIAL, e).(disableRequested := c.disableRequested, announced := c.announced + [Inactive],
                                   thread := Replaced(c.thread))
  {
  }
}
