/** The core of an instance: the module's automaton, the instance loop and the requests, changing their flags in place. */
module Instance {
  import opened Types
  import opened Registry
  import opened Lifecycle
  import opened Dispatcher
  import X = Dispatch
  import S = Service

  class AbstractModule {
    const uniqueId: Id
    const dependencies: seq<U16>
    var moduleState: Mode

    constructor (id: Id, dependencies: seq<U16>)
      ensures moduleState == Disabled && uniqueId == id && this.dependencies == dependencies
    {
      uniqueId, this.dependencies, moduleState := id, dependencies, Disabled;
    }

    /** Runs the module's enable function, unless the module is not disabled. */
    method InternalEnable(succeeds: bool) returns (ok: bool)
      modifies this
      ensures (moduleState, ok) == ModuleEnabled(old(moduleState), succeeds)
      ensures if old(moduleState) == Disabled then ok == succeeds && moduleState == (if succeeds then Enabled else Disabled)
              else ok && moduleState == old(moduleState)
    {
      if moduleState != Disabled { return true; }
      moduleState := Enabling;
      if succeeds {
        moduleState := Enabled;
        ok := true;
      } else {
        moduleState := Disabled;
        ok := false;
      }
    }

    method InternalDisable()
      modifies this
      ensures moduleState == ModuleDisabled(old(moduleState))
      ensures moduleState == if old(moduleState) == Enabled then Disabled else old(moduleState)
    {
      if moduleState != Enabled { return; }
      moduleState := Disabling;
      moduleState := Disabled;
    }
  }

  /** Every type the module depends on has an active peer. */
  ghost predicate Satisfied(active: seq<Id>, dependencies: seq<U16>) {
    forall k :: 0 <= k < |dependencies| ==> exists id :: id in active && id.typeId == dependencies[k]
  }

  class ZmfCore {
    const selfModule: AbstractModule
    const eventDispatcher: ModuleEventDispatcher
    const peerRegistry: PeerRegistry
    var isStarted: bool
    var isStopped: bool
    var looping: bool
    var moduleActive: bool
    var stopRequested: bool
    var disableRequested: bool
    var enableRequested: bool
    var exitWhenEnableFail: bool
    /** Discovery's side: whether it runs, the own state, and what was announced. */
    var announcing: bool
    var selfState: ModuleState
    var announced: seq<ModuleState>
    /** The thread of the loop, and the calls of the stopped callback that it made. */
    var thread: Thread

    function Abs(): Core
      reads this, selfModule, eventDispatcher
    {
      Core(isStarted, isStopped, looping, stopRequested, moduleActive, enableRequested, disableRequested,
           exitWhenEnableFail, selfModule.moduleState, eventDispatcher.alive, announcing, selfState, announced,
           thread)
    }

    /** The messaging service runs under a started instance and under an alive dispatcher. */
    ghost predicate Served()
      reads this, eventDispatcher, eventDispatcher.msgService
    {
      isStarted || eventDispatcher.alive ==> eventDispatcher.msgService.alive
    }

    constructor (selfModule: AbstractModule, eventDispatcher: ModuleEventDispatcher, peerRegistry: PeerRegistry)
      requires selfModule.moduleState == Disabled && !eventDispatcher.alive
      ensures Abs() == Lifecycle.INITIAL && Served()
      ensures this.selfModule == selfModule && this.eventDispatcher == eventDispatcher && this.peerRegistry == peerRegistry
    {
      this.selfModule, this.eventDispatcher, this.peerRegistry := selfModule, eventDispatcher, peerRegistry;
      isStarted, isStopped, looping, moduleActive := false, true, false, false;
      stopRequested, disableRequested, enableRequested, exitWhenEnableFail := false, false, false, false;
      announcing, selfState, announced, thread := false, Dead, [], Thread(0, false, false);
    }

    // ---- What the core asks the registry ----

    /** Stops at the first type without an active peer. */
    method CheckDependenciesSatisfied() returns (ok: bool)
      requires peerRegistry.Valid()
      ensures ok <==> Satisfied(peerRegistry.table.active, selfModule.dependencies)
    {
      hide PeerRegistry.Valid;
      var deps := selfModule.dependencies;
      var i := 0;
      while i < |deps|
        invariant 0 <= i <= |deps| && Satisfied(peerRegistry.table.active, deps[..i])
      {
        var found := peerRegistry.ContainsPeerWithType(deps[i], true);
        if !found { return false; }
        i := i + 1;
      }
      assert deps[..i] == deps;
      ok := true;
    }

    method ModuleIsUnique() returns (ok: bool)
      requires peerRegistry.Valid()
      ensures ok <==> selfModule.uniqueId !in peerRegistry.table.order
    {
      hide PeerRegistry.Valid;
      var found := peerRegistry.ContainsPeerWithId(selfModule.uniqueId, false);
      ok := !found;
    }

    method UpdateSelfState(state: ModuleState)
      modifies this`selfState
      ensures selfState == state
    {
      selfState := state;
    }

    method SendStateMulticast()
      modifies this`announced
      ensures announced == if announcing then old(announced) + [selfState] else old(announced)
    {
      if !announcing { return; }
      announced := announced + [selfState];
    }

    // ---- Enabling and disabling ----

    method EnableModule(succeeds: bool) returns (ok: bool)
      requires Served() && isStarted
      modifies this`moduleActive, this`selfState, this`announced, selfModule, eventDispatcher, eventDispatcher.msgService
      ensures (Abs(), ok) == Lifecycle.EnableModule(old(Abs()), succeeds) && Served()
      ensures old(moduleActive) ==> !ok
    {
      hide X.Step, X.DisableAll, ModuleEventDispatcher.Abs;
      if moduleActive { return false; }
      eventDispatcher.OnEnable();
      ok := selfModule.InternalEnable(succeeds);
      if ok {
        GoActive();
      } else {
        var disabled := eventDispatcher.OnDisable();
        assert disabled;
      }
    }

    method GoActive()
      modifies this`moduleActive, this`selfState, this`announced
      ensures moduleActive && selfState == Active
      ensures announced == if announcing then old(announced) + [Active] else old(announced)
    {
      moduleActive := true;
      UpdateSelfState(Active);
      SendStateMulticast();
    }

    method DisableModule()
      requires Served()
      modifies this`moduleActive, this`selfState, this`announced, selfModule, eventDispatcher, eventDispatcher.msgService
      ensures Abs() == Lifecycle.DisableModule(old(Abs())) && Served()
    {
      hide X.Step, X.DisableAll, ModuleEventDispatcher.Abs;
      if !moduleActive { return; }
      moduleActive := false;
      selfModule.InternalDisable();
      var disabled := eventDispatcher.OnDisable();
      assert disabled;
      UpdateSelfState(Inactive);
      SendStateMulticast();
    }

    // ---- The instance loop ----

    /** One pass: what it finds in the registry decides what it does. */
    method LoopPass(succeeds: bool)
      requires peerRegistry.Valid() && Served() && isStarted && looping && !stopRequested
      modifies this`moduleActive, this`selfState, this`announced, this`enableRequested, this`disableRequested
      modifies this`stopRequested, selfModule, eventDispatcher, eventDispatcher.msgService
      ensures Abs() == Step(old(Abs()), Pass(Satisfied(peerRegistry.table.active, selfModule.dependencies),
                                             selfModule.uniqueId !in peerRegistry.table.order, succeeds))
      ensures Served()
    {
      hide PeerRegistry.Valid, Satisfied, Lifecycle.ActivePass, Lifecycle.InactivePass;
      if moduleActive {
        ActivePass();
      } else {
        InactivePass(succeeds);
      }
    }

    method ActivePass()
      requires peerRegistry.Valid() && Served()
      modifies this`moduleActive, this`selfState, this`announced, this`enableRequested, this`disableRequested
      modifies this`stopRequested, selfModule, eventDispatcher, eventDispatcher.msgService
      ensures Abs() == Lifecycle.ActivePass(old(Abs()), Satisfied(peerRegistry.table.active, selfModule.dependencies),
                                            selfModule.uniqueId !in peerRegistry.table.order)
      ensures Served()
    {
      hide PeerRegistry.Valid, Satisfied, Lifecycle.DisableModule;
      if disableRequested {
        disableRequested := false;
        DisableModule();
      } else {
        var satisfied := CheckDependenciesSatisfied();
        if !satisfied {
          DisableModule();
          enableRequested := true;
        } else {
          var unique := ModuleIsUnique();
          if !unique {
            stopRequested := true;
          }
        }
      }
    }

    method InactivePass(succeeds: bool)
      requires peerRegistry.Valid() && Served() && isStarted
      modifies this`moduleActive, this`selfState, this`announced, this`enableRequested, this`stopRequested
      modifies selfModule, eventDispatcher, eventDispatcher.msgService
      ensures Abs() == Lifecycle.InactivePass(old(Abs()), Satisfied(peerRegistry.table.active, selfModule.dependencies),
                                              selfModule.uniqueId !in peerRegistry.table.order, succeeds)
      ensures Served()
    {
      hide PeerRegistry.Valid, Satisfied, Lifecycle.EnableModule;
      if !enableRequested { return; }
      var satisfied := CheckDependenciesSatisfied();
      if !satisfied { return; }
      var unique := ModuleIsUnique();
      if !unique { return; }
      enableRequested := false;
      var enableSuccess := EnableModule(succeeds);
      if !enableSuccess && exitWhenEnableFail {
        stopRequested := true;
      }
    }

    /** The loop has ended. */
    method OnInstanceStopped()
      requires Served()
      modifies this, selfModule, eventDispatcher, eventDispatcher.msgService
      ensures Abs() == Lifecycle.OnInstanceStopped(old(Abs())) && Served()
      ensures old(isStarted) ==> !eventDispatcher.alive && !eventDispatcher.msgService.alive
    {
      hide Lifecycle.Depart, Lifecycle.DisableModule;
      if !isStarted { return; }
      DisableIfActive();
      Depart();
    }

    method DisableIfActive()
      requires Served()
      modifies this`moduleActive, this`selfState, this`announced, selfModule, eventDispatcher, eventDispatcher.msgService
      ensures Abs() == Lifecycle.DisableModule(old(Abs())) && Served()
    {
      if moduleActive {
        DisableModule();
      }
    }

    method Depart()
      requires Served()
      modifies this`thread, this`isStarted, this`selfState, this`announced, this`announcing, this`isStopped
      modifies eventDispatcher, eventDispatcher.msgService
      ensures Abs() == Lifecycle.Depart(old(Abs())) && Served()
      ensures !eventDispatcher.alive && !eventDispatcher.msgService.alive
    {
      hide X.Step, ModuleEventDispatcher.Abs, Announce;
      Farewell();
      announcing := false;
      var stopped := eventDispatcher.Stop();
      assert stopped;
      isStopped := true;
    }

    /** Tells the owner and announces the end. */
    method Farewell()
      modifies this`thread, this`isStarted, this`selfState, this`announced
      ensures Abs() == Announce(old(Abs()).(thread := Told(old(thread)), isStarted := false, selfState := Dead))
      ensures !isStarted
    {
      thread := thread.(callbacks := thread.callbacks + 1);
      isStarted := false;
      UpdateSelfState(Dead);
      SendStateMulticast();
    }

    method FinishLoop()
      requires looping && stopRequested && Served()
      modifies this, selfModule, eventDispatcher, eventDispatcher.msgService
      ensures Abs() == Step(old(Abs()), Finish) && Served()
      ensures old(isStarted) ==> !eventDispatcher.alive && !eventDispatcher.msgService.alive
    {
      hide Lifecycle.OnInstanceStopped;
      looping := false;
      OnInstanceStopped();
    }

    // ---- Public commands ----

    /** Starts the messaging service (when its sockets can be bound), then discovery, then the loop. */
    method StartInstance(autoEnable: bool, exitOnFail: bool, bufferSize: int, binds: bool, discoveryStarts: bool)
        returns (ok: bool)
      requires peerRegistry.Valid() && Served()
      modifies this, eventDispatcher, eventDispatcher.msgService
      ensures Served()
      ensures Abs() == Step(old(Abs()), Start(autoEnable, exitOnFail, binds && !old(eventDispatcher.msgService.alive),
                                              discoveryStarts, selfModule.uniqueId !in peerRegistry.table.order))
      ensures ok == (!old(isStarted) && isStarted)
      ensures eventDispatcher.msgService.alive
           == if old(isStarted) || !binds || old(eventDispatcher.msgService.alive) then old(eventDispatcher.msgService.alive)
              else discoveryStarts
    {
      hide X.Step, PeerRegistry.Valid, ModuleEventDispatcher.Abs, Lifecycle.Launch;
      if isStarted { return false; }
      isStopped := false;
      var started := StartServices(bufferSize, binds, discoveryStarts);
      if !started { return false; }
      Launch(autoEnable, exitOnFail);
      ok := true;
    }

    method Launch(autoEnable: bool, exitOnFail: bool)
      requires peerRegistry.Valid() && announcing
      modifies this`exitWhenEnableFail, this`enableRequested, this`stopRequested, this`looping, this`isStarted
      modifies this`selfState, this`announced, this`thread
      ensures Abs() == Lifecycle.Launch(old(Abs()), autoEnable, exitOnFail) && isStarted
    {
      hide PeerRegistry.Valid;
      UpdateSelfState(Inactive);
      SendStateMulticast();
      BeginLoop(autoEnable, exitOnFail);
    }

    /** The check for a unique id asks for a stop, which the start of the loop takes back. */
    method BeginLoop(autoEnable: bool, exitOnFail: bool)
      requires peerRegistry.Valid()
      modifies this`exitWhenEnableFail, this`enableRequested, this`stopRequested, this`looping, this`isStarted
      modifies this`thread
      ensures exitWhenEnableFail == exitOnFail && enableRequested == autoEnable
      ensures !stopRequested && looping && isStarted && thread == Replaced(old(thread))
    {
      hide PeerRegistry.Valid;
      exitWhenEnableFail := exitOnFail;
      enableRequested := autoEnable;
      var unique := ModuleIsUnique();
      if !unique {
        stopRequested := true;
      }
      stopRequested := false;
      thread := Thread(thread.callbacks, true, thread.terminated || thread.joinable);
      looping := true;
      isStarted := true;
    }

    /** First the messaging service, then discovery. When discovery fails, the messaging service is stopped again. */
    method StartServices(bufferSize: int, binds: bool, discoveryStarts: bool) returns (ok: bool)
      requires Served() && !isStarted
      modifies this`announcing, eventDispatcher, eventDispatcher.msgService
      ensures Served() && (ok ==> eventDispatcher.msgService.alive)
      ensures ok == (binds && !old(eventDispatcher.msgService.alive) && discoveryStarts)
      ensures announcing == (old(announcing) || ok)
      ensures eventDispatcher.msgService.alive == if binds && !old(eventDispatcher.msgService.alive) then discoveryStarts
                                                  else old(eventDispatcher.msgService.alive)
      ensures eventDispatcher.alive == (old(eventDispatcher.alive) && !(binds && !old(eventDispatcher.msgService.alive) && !ok))
    {
      hide X.Step, ModuleEventDispatcher.Abs;
      ok := eventDispatcher.Start(bufferSize, binds);
      if !ok { return; }
      if discoveryStarts {
        announcing := true;
      } else {
        var stopped := eventDispatcher.Stop();
        assert stopped;
        ok := false;
      }
    }

    /** Asks the loop to stop, waits for its end and joins its thread. */
    method StopInstance()
      requires Served() && Agreed(Abs())
      modifies this, selfModule, eventDispatcher, eventDispatcher.msgService
      ensures Served()
      ensures Abs() == if old(isStarted) then Step(Step(Step(old(Abs()), Event.Stop), Finish), Join)
                       else Step(old(Abs()), Event.Stop)
      ensures old(isStarted) ==> !isStarted && !eventDispatcher.msgService.alive
    {
      hide Lifecycle.OnInstanceStopped;
      if !isStarted && enableRequested {
        enableRequested := false;
        return;
      }
      if !isStarted { return; }
      stopRequested := true;
      if thread.joinable {
        WaitForLoop();
      }
    }

    /** While the caller waits, the loop ends. */
    method WaitForLoop()
      requires Served() && looping && stopRequested
      modifies this, selfModule, eventDispatcher, eventDispatcher.msgService
      ensures Served() && Abs() == Step(Step(old(Abs()), Finish), Join)
      ensures old(isStarted) ==> !isStarted && !eventDispatcher.msgService.alive
    {
      hide Lifecycle.OnInstanceStopped;
      LoopEnds(Abs().(looping := false));
      FinishLoop();
      hide Step;
      var waits := JoinExecution();
    }

    /** Joins the thread of the loop; while the loop runs, the caller waits and nothing is done. */
    method JoinExecution() returns (waits: bool)
      requires looping ==> thread.joinable
      modifies this`thread
      ensures Abs() == Step(old(Abs()), Join) && waits == looping && Served() == old(Served())
    {
      waits := false;
      if !thread.joinable { return; }
      waits := looping;
      if !looping {
        thread := thread.(joinable := false);
      }
    }

    method RequestEnableModule()
      modifies this`enableRequested, this`disableRequested
      ensures Abs() == Step(old(Abs()), RequestEnable)
    {
      if moduleActive { return; }
      disableRequested := false;
      enableRequested := true;
    }

    method RequestDisableModule()
      modifies this`enableRequested, this`disableRequested
      ensures Abs() == Step(old(Abs()), RequestDisable)
    {
      if !moduleActive && !enableRequested { return; }
      enableRequested := false;
      disableRequested := true;
    }

    method RequestStopInstance()
      modifies this`enableRequested, this`stopRequested
      ensures Abs() == Step(old(Abs()), RequestStop)
    {
      if !isStarted && !enableRequested { return; }
      enableRequested := false;
      stopRequested := true;
    }

    /** A command of a system request. */
    method Obey(command: X.Command)
      modifies this`enableRequested, this`disableRequested, this`stopRequested
      ensures Abs() == Obeyed(old(Abs()), [command])
    {
      ObeyedOne(Abs(), command);
      match command {
        case EnableModule => RequestEnableModule();
        case DisableModule => RequestDisableModule();
        case StopInstance => RequestStopInstance();
      }
    }
  }

  function RequestFor(command: X.Command): Event {
    match command
    case EnableModule => RequestEnable
    case DisableModule => RequestDisable
    case StopInstance => RequestStop
  }

  /** The core after the commands the dispatcher gave it. */
  function Obeyed(c: Core, commands: seq<X.Command>): Core {
    if commands == [] then c
    else Step(Obeyed(c, commands[..|commands| - 1]), RequestFor(commands[|commands| - 1]))
  }

  lemma ObeyedOne(c: Core, command: X.Command)
    ensures Obeyed(c, [command]) == Step(c, RequestFor(command))
  {
    assert [command][..0] == [];
  }

  /** What a system request from another instance does to the core. Enabling an inactive module is wished after data [3],
      disabling an active or wished one after [1], and a started or wished instance is asked to stop after [2]; where these
      do not apply, and after any other data, nothing changes. */
  lemma RemoteCommandTakesEffect(x: X.State, c: Core, reqId: U64, sender: Id, msg: Msg)
    requires x.svc.alive && [3, 255] <= msg.topic
    ensures var x' := X.Step(x, X.Arrive(S.Request(reqId, S.IdBytes(sender), msg)));
            && x.commands <= x'.commands
            && Obeyed(c, x'.commands[|x.commands|..])
               == if msg.data == [3] && !c.moduleActive then c.(enableRequested := true, disableRequested := false)
                  else if msg.data == [1] && (c.moduleActive || c.enableRequested) then
                    c.(enableRequested := false, disableRequested := true)
                  else if msg.data == [2] && (c.isStarted || c.enableRequested) then
                    c.(enableRequested := false, stopRequested := true)
                  else c
  {
    X.SystemRequestIsServed(x, reqId, sender, msg);
    hide X.Step;
    var x' := X.Step(x, X.Arrive(S.Request(reqId, S.IdBytes(sender), msg)));
    if msg.data == [3] {
      ObeyedOne(c, X.EnableModule);
      assert x'.commands[|x.commands|..] == [X.EnableModule];
    } else if msg.data == [1] {
      ObeyedOne(c, X.DisableModule);
      assert x'.commands[|x.commands|..] == [X.DisableModule];
    } else if msg.data == [2] {
      ObeyedOne(c, X.StopInstance);
      assert x'.commands[|x.commands|..] == [X.StopInstance];
    } else {
      assert x'.commands[|x.commands|..] == [];
    }
  }
}
