/** The module's mutex and the mutex of the table of handlers, between the instance loop, which enables and disables the module,
    and the delivery thread, which calls it: one lock, unlock or check at a time, in any order. */
module ModuleMutex {
  import opened Types
  import X = Dispatch

  datatype Thread = Loop | Delivery

  /** Where the module's enable or disable function is with a subscription: not at one, about to lock the table, or at it. */
  datatype TableAt = Away | Coming | There

  /** Where the instance loop is: between two operations, about to lock the module, inside its enable or disable function,
      about to stop the dispatcher, waiting for the delivery thread to end, or about to clear the table. */
  datatype LoopAt =
    | Idle
    | ToEnable | InEnable(table: TableAt)
    | ToDisable | InDisable(table: TableAt)
    | ToStop | Joining | ToClear

  /** Where the delivery thread is: it has ended, waits for a token, is about to lock the table for an event, has an item that
      takes the module's mutex that many times more, outside or inside, is about to unlock the table, or waits inside a
      callback for the table it has locked itself. */
  datatype DeliveryAt =
    | Gone | Waiting | ToTable
    | Holding(kind: X.Kind, turns: nat) | Inside(kind: X.Kind, turns: nat)
    | Leaving | Wedged

  datatype State = State(
    loop: LoopAt,
    delivery: DeliveryAt,
    /** The owners of the module's mutex and of the table's. */
    owner: Option<Thread>,
    tableOwner: Option<Thread>,
    /** The dispatcher is alive. */
    alive: bool,
    /** The module is enabled. */
    enabled: bool)

  /** Enabling succeeds or not; a matching event has a number of turns; a callback may throw, or subscribe. */
  datatype Event =
    | BeginEnable | BeginDisable
    | LoopLocks | LoopUnlocks(succeeds: bool)
    | LoopComes | LoopTakesTable | LoopLeavesTable
    | StopDispatcher | Joined | ClearTable
    | Take(kind: X.Kind) | WakeUp
    | TakesTable(turns: nat) | LeavesTable
    | DeliveryLocks | DeliveryDone(throws: bool) | CallbackComes

  const INITIAL := State(Idle, Gone, None, None, false, false)

  predicate LoopInside(x: State) {
    x.loop.InEnable? || x.loop.InDisable?
  }

  predicate Allowed(x: State, e: Event) {
    match e
    case BeginEnable => x.loop == Idle && !x.enabled
    case BeginDisable => x.loop == Idle && x.enabled
    case LoopLocks => (x.loop == ToEnable || x.loop == ToDisable) && x.owner == None
    case LoopUnlocks(_) => LoopInside(x) && x.loop.table == Away
    case LoopComes => LoopInside(x) && x.loop.table == Away
    case LoopTakesTable => LoopInside(x) && x.loop.table == Coming && x.tableOwner == None
    case LoopLeavesTable => LoopInside(x) && x.loop.table == There
    case StopDispatcher => x.loop == ToStop
    case Joined => x.loop == Joining && x.delivery == Gone
    case ClearTable => x.loop == ToClear && x.tableOwner == None
    case Take(_) => x.delivery == Waiting
    case WakeUp => x.delivery == Waiting && !x.alive
    case TakesTable(_) => x.delivery == ToTable && x.tableOwner == None
    case LeavesTable => x.delivery == Leaving
    case DeliveryLocks => x.delivery.Holding? && x.owner == None
    case DeliveryDone(throws) => x.delivery.Inside? && (throws ==> x.enabled)
    case CallbackComes => x.delivery.Inside? && x.delivery.kind == X.EventKind && x.enabled
  }

  /** Back at the head of the delivery loop. */
  function AtHead(x: State): DeliveryAt {
    if x.alive then Waiting else Gone
  }

  /** A request that finds the module not enabled, and a change of state on which the module throws, leave the mutex locked;
      any other turn unlocks it. */
  function EndTurn(x: State, throws: bool): State
    requires x.delivery.Inside?
  {
    var d := x.delivery;
    if (d.kind == X.RequestKind && !x.enabled) || (d.kind == X.StateKind && throws) then x.(delivery := AtHead(x))
    else x.(owner := None,
            delivery := if d.kind != X.EventKind then AtHead(x)
                        else if d.turns > 1 then Holding(d.kind, d.turns - 1)
                        else Leaving)
  }

  function AtPlace(loop: LoopAt, table: TableAt): LoopAt
    requires loop.InEnable? || loop.InDisable?
  {
    if loop.InEnable? then InEnable(table) else InDisable(table)
  }

  function Step(x: State, e: Event): State
    requires Allowed(x, e)
  {
    match e
    case BeginEnable => x.(loop := ToEnable, alive := true, delivery := if x.alive then x.delivery else Waiting)
    case BeginDisable => x.(loop := ToDisable)
    case LoopLocks => x.(owner := Some(Loop), loop := if x.loop == ToEnable then InEnable(Away) else InDisable(Away))
    case LoopUnlocks(succeeds) =>
      var enabled := x.loop.InEnable? && succeeds;
      x.(owner := None, enabled := enabled, loop := if enabled then Idle else ToStop)
    case LoopComes => x.(loop := AtPlace(x.loop, Coming))
    case LoopTakesTable => x.(loop := AtPlace(x.loop, There), tableOwner := Some(Loop))
    case LoopLeavesTable => x.(loop := AtPlace(x.loop, Away), tableOwner := None)
    case StopDispatcher => x.(alive := false, loop := Joining)
    case Joined => x.(loop := ToClear)
    case ClearTable => x.(loop := Idle)
    case Take(kind) => x.(delivery := if kind == X.EventKind then ToTable else Holding(kind, 1))
    case WakeUp => x.(delivery := Gone)
    case TakesTable(turns) =>
      x.(tableOwner := Some(Delivery), delivery := if turns > 0 then Holding(X.EventKind, turns) else Leaving)
    case LeavesTable => x.(tableOwner := None, delivery := AtHead(x))
    case DeliveryLocks => x.(owner := Some(Delivery), delivery := Inside(x.delivery.kind, x.delivery.turns))
    case DeliveryDone(throws) => EndTurn(x, throws)
    case CallbackComes => x.(delivery := Wedged)
  }

  predicate Runs(x: State, es: seq<Event>)
    decreases |es|
  {
    es == [] || (Allowed(x, es[0]) && Runs(Step(x, es[0]), es[1..]))
  }

  function After(x: State, es: seq<Event>): State
    requires Runs(x, es)
    decreases |es|
  {
    if es == [] then x else After(Step(x, es[0]), es[1..])
  }

  // ---- Who is inside ----

  predicate OfEvent(d: DeliveryAt) {
    ((d.Holding? || d.Inside?) && d.kind == X.EventKind) || d == Leaving || d == Wedged
  }

  /** Whoever is inside holds the mutex; the table belongs to the loop at a subscription and to the delivery of an event; the
      loop's place says whether dispatcher and module are on; the delivery thread runs while the dispatcher is alive. */
  ghost predicate Sound(x: State) {
    && (x.owner == Some(Loop) <==> LoopInside(x))
    && (x.delivery.Inside? || x.delivery == Wedged ==> x.owner == Some(Delivery))
    && (x.tableOwner == Some(Loop) <==> LoopInside(x) && x.loop.table == There)
    && (x.tableOwner == Some(Delivery) <==> OfEvent(x.delivery))
    && x.alive == (if x.loop == Idle then x.enabled else x.loop != Joining && x.loop != ToClear)
    && (x.enabled <==> (x.loop == Idle && x.alive) || x.loop == ToDisable || x.loop.InDisable?)
    && (x.alive ==> x.delivery != Gone)
    && ((x.loop == Idle && !x.enabled) || x.loop == ToClear ==> x.delivery == Gone)
    && (x.delivery == Wedged ==> x.enabled)
    && (x.delivery.Holding? || x.delivery.Inside? ==> x.delivery.turns >= 1)
  }

  lemma StepKeepsSound(x: State, e: Event)
    requires Sound(x) && Allowed(x, e)
    ensures Sound(Step(x, e))
  {
  }

  lemma {:induction false} RunKeepsSound(x: State, es: seq<Event>)
    requires Sound(x) && Runs(x, es)
    ensures Sound(After(x, es))
    decreases |es|
  {
    if es != [] {
      StepKeepsSound(x, es[0]);
      hide Sound, Step, Allowed;
      RunKeepsSound(Step(x, es[0]), es[1..]);
    }
  }

  lemma OwnerIsThread(owner: Option<Thread>)
    ensures owner == None || owner == Some(Loop) || owner == Some(Delivery)
  {
    if owner.Some? {
      match owner.value {
        case Loop =>
        case Delivery =>
      }
    }
  }

  /** The loop and the delivery thread are never inside together; what is delivered to an enabled module is delivered before
      the module is disabled; and a callback for a request or a change of state finds the table free. */
  lemma NeverBothInside(es: seq<Event>)
    requires Runs(INITIAL, es)
    ensures var x := After(INITIAL, es);
            && Sound(x) && !(x.delivery.Inside? && LoopInside(x))
            && (x.delivery.Inside? ==>
                  forall e :: Allowed(x, e) && !e.DeliveryDone? ==> Step(x, e).enabled == x.enabled)
            && (x.delivery.Inside? && x.delivery.kind != X.EventKind ==> x.tableOwner == None)
  {
    RunKeepsSound(INITIAL, es);
    hide Runs, After;
    OwnerIsThread(After(INITIAL, es).tableOwner);
  }

  // ---- Waiting for ever ----

  /** The delivery thread has left the module's mutex locked. */
  predicate LeftLocked(x: State) {
    x.owner == Some(Delivery) && !x.delivery.Inside? && x.delivery != Wedged
  }

  /** The loop, inside, waits for the table that the delivery of an event has locked; the delivery waits for the loop to
      leave. */
  predicate Crossed(x: State) {
    LoopInside(x) && x.loop.table == Coming && x.delivery.Holding? && x.delivery.kind == X.EventKind
  }

  predicate Lost(x: State) {
    LeftLocked(x) || Crossed(x) || x.delivery == Wedged
  }

  predicate HasRequest(x: State) {
    (x.delivery.Holding? || x.delivery.Inside?) && x.delivery.kind == X.RequestKind
  }

  /** A request is in the delivery thread's hands that is sure to find the module not enabled. */
  predicate RequestComes(x: State) {
    && HasRequest(x)
    && if x.delivery.Inside? then !x.enabled else x.loop.InDisable? || x.loop == ToStop || x.loop == Joining
  }

  /** The loop is between two operations, with the module on or off. */
  predicate Settled(x: State, on: bool) {
    x.loop == Idle && x.enabled == on
  }

  predicate NeverOn(x: State) {
    (Lost(x) && !Settled(x, true)) || RequestComes(x)
  }

  predicate NeverOff(x: State) {
    || x.delivery == Wedged || Crossed(x)
    || (LeftLocked(x) && (x.enabled || x.loop == ToEnable || x.delivery.Holding?))
    || (x.delivery.Inside? && HasRequest(x) && !x.enabled && x.loop == ToEnable)
  }

  /** What stands against switching the module on, or off. */
  predicate Barred(x: State, on: bool) {
    if on then NeverOn(x) else NeverOff(x)
  }

  lemma StepKeepsBarred(x: State, e: Event, on: bool)
    requires Sound(x) && Barred(x, on) && Allowed(x, e)
    ensures Barred(Step(x, e), on)
  {
  }

  lemma BarredIsNotSettled(x: State, on: bool)
    requires Sound(x) && Barred(x, on)
    ensures !Settled(x, on)
  {
  }

  lemma {:induction false} RunKeepsBarred(x: State, es: seq<Event>, on: bool)
    requires Sound(x) && Barred(x, on) && Runs(x, es)
    ensures Barred(After(x, es), on) && !Settled(After(x, es), on)
    decreases |es|
  {
    hide Sound, Barred, Step, Allowed, Settled;
    BarredIsNotSettled(x, on);
    if es != [] {
      StepKeepsBarred(x, es[0], on);
      StepKeepsSound(x, es[0]);
      RunKeepsBarred(Step(x, es[0]), es[1..], on);
    }
  }

  ghost predicate LeadsTo(x: State, es: seq<Event>, on: bool) {
    Runs(x, es) && Settled(After(x, es), on)
  }

  lemma OneMore(x: State, e: Event, rest: seq<Event>, on: bool)
    requires Allowed(x, e) && LeadsTo(Step(x, e), rest, on)
    ensures LeadsTo(x, [e] + rest, on)
  {
    hide Step, Allowed;
    assert ([e] + rest)[1..] == rest;
  }

  /** How many operations the loop is from the goal. */
  function Distance(x: State, on: bool): nat {
    match x.loop
    case Idle => if x.enabled == on then 0 else if on then 3 else 9
    case ToEnable => if on then 2 else 8
    case InEnable(_) => if on then 1 else 7
    case ToDisable => 8
    case InDisable(_) => 7
    case ToStop => 6
    case Joining => 5
    case ToClear => 4
  }

  /** How much there is left to do at this distance. */
  function Work(x: State): nat {
    (match x.delivery
     case Gone => 0
     case Waiting => 1
     case Leaving => 2
     case ToTable => 3
     case Holding(_, turns) => 2 * turns + 3
     case Inside(_, turns) => 2 * turns + 2
     case Wedged => 0)
    + (if !LoopInside(x) then 0 else match x.loop.table case Away => 0 case Coming => 2 case There => 1)
  }

  function TableNext(x: State, on: bool): Event
    requires LoopInside(x)
  {
    match x.loop.table
    case Away => LoopUnlocks(on)
    case Coming => if x.tableOwner == None then LoopTakesTable else LeavesTable
    case There => LoopLeavesTable
  }

  function JoiningNext(x: State): Event {
    match x.delivery
    case Gone => Joined
    case Waiting => WakeUp
    case ToTable => TakesTable(0)
    case Holding(_, _) => DeliveryLocks
    case Inside(_, _) => DeliveryDone(false)
    case Leaving => LeavesTable
    case Wedged => Joined
  }

  /** What to do next so that the module comes to be on, or off. */
  function Onward(x: State, on: bool): Event {
    match x.loop
    case Idle => if x.enabled then BeginDisable else BeginEnable
    case ToEnable => if x.delivery.Inside? then DeliveryDone(false) else LoopLocks
    case InEnable(_) => TableNext(x, on)
    case ToDisable =>
      if x.delivery.Inside? then DeliveryDone(false) else if on && HasRequest(x) then DeliveryLocks else LoopLocks
    case InDisable(_) => TableNext(x, on)
    case ToStop => StopDispatcher
    case Joining => JoiningNext(x)
    case ToClear => ClearTable
  }

  ghost predicate Nearer(x: State, y: State, on: bool) {
    && Sound(y) && !Barred(y, on)
    && (Distance(y, on) < Distance(x, on) || (Distance(y, on) == Distance(x, on) && Work(y) < Work(x)))
  }

  lemma OnwardGoesOn(x: State, on: bool)
    requires Sound(x) && !Barred(x, on) && !Settled(x, on)
    ensures Allowed(x, Onward(x, on)) && Nearer(x, Step(x, Onward(x, on)), on)
  {
    hide Sound, Barred, Nearer, Onward, Step, Allowed;
    if LoopInside(x) {
      OnwardInside(x, on);
    } else if x.loop == Joining {
      OnwardJoining(x, on);
    } else {
      OnwardElsewhere(x, on);
    }
  }

  lemma OnwardInside(x: State, on: bool)
    requires Sound(x) && !Barred(x, on) && LoopInside(x)
    ensures Allowed(x, Onward(x, on)) && Nearer(x, Step(x, Onward(x, on)), on)
  {
    OwnerIsThread(x.tableOwner);
  }

  lemma OnwardJoining(x: State, on: bool)
    requires Sound(x) && !Barred(x, on) && x.loop == Joining
    ensures Allowed(x, Onward(x, on)) && Nearer(x, Step(x, Onward(x, on)), on)
  {
    OwnerIsThread(x.owner);
    OwnerIsThread(x.tableOwner);
  }

  lemma OnwardElsewhere(x: State, on: bool)
    requires Sound(x) && !Barred(x, on) && !Settled(x, on) && !LoopInside(x) && x.loop != Joining
    ensures Allowed(x, Onward(x, on)) && Nearer(x, Step(x, Onward(x, on)), on)
  {
    OwnerIsThread(x.owner);
    OwnerIsThread(x.tableOwner);
  }

  lemma {:induction false} CanSettle(x: State, on: bool) returns (es: seq<Event>)
    requires Sound(x) && !Barred(x, on)
    ensures LeadsTo(x, es, on)
    decreases Distance(x, on), Work(x)
  {
    hide Sound, Barred, Step, Allowed, Distance, Work, Onward;
    es := [];
    if !Settled(x, on) {
      OnwardGoesOn(x, on);
      var rest := CanSettle(Step(x, Onward(x, on)), on);
      OneMore(x, Onward(x, on), rest, on);
      es := [Onward(x, on)] + rest;
    }
  }

  /** In every interleaving: the module can still be switched on (or is), and can still be switched off (or is), exactly when
      nothing stands against it. */
  lemma CanSettleExactlyWhenNotBarred(es: seq<Event>, on: bool)
    requires Runs(INITIAL, es)
    ensures (exists later :: LeadsTo(After(INITIAL, es), later, on)) <==> !Barred(After(INITIAL, es), on)
  {
    RunKeepsSound(INITIAL, es);
    var x := After(INITIAL, es);
    hide Sound, Barred, Settled;
    if Barred(x, on) {
      forall later | Runs(x, later)
        ensures !Settled(After(x, later), on)
      {
        RunKeepsBarred(x, later, on);
      }
    } else {
      var later := CanSettle(x, on);
    }
  }

  /** The delivery thread has an item. */
  predicate DeliveryBusy(x: State) {
    x.delivery != Gone && x.delivery != Waiting
  }

  /** A step that a thread owes: not the start of an operation, nor taking an item, nor coming to the table. */
  predicate Moves(x: State, e: Event) {
    && Allowed(x, e)
    && e != BeginEnable && e != BeginDisable && e != LoopComes && !e.Take? && e != CallbackComes
  }

  function NextMove(x: State): Event {
    if x.delivery.Inside? then DeliveryDone(false)
    else match x.loop
      case ToEnable => LoopLocks
      case ToDisable => LoopLocks
      case InEnable(_) => TableNext(x, true)
      case InDisable(_) => TableNext(x, true)
      case ToStop => StopDispatcher
      case ToClear => ClearTable
      case _ => JoiningNext(x)
  }

  lemma SoundGoesOn(x: State)
    requires Sound(x) && !Lost(x) && (x.loop != Idle || DeliveryBusy(x))
    ensures Moves(x, NextMove(x))
  {
    OwnerIsThread(x.owner);
    OwnerIsThread(x.tableOwner);
  }

  /** In every interleaving: while no mutex is left locked, no waits are crossed and no callback waits for its own delivery,
      somebody goes on as long as the loop or the delivery thread has something to do. */
  lemma SomeoneGoesOn(es: seq<Event>)
    requires Runs(INITIAL, es) && !Lost(After(INITIAL, es))
    ensures var x := After(INITIAL, es);
            x.loop != Idle || DeliveryBusy(x) ==> exists e :: Moves(x, e)
  {
    RunKeepsSound(INITIAL, es);
    hide Runs, After, Sound, Moves, DeliveryBusy, Lost, NextMove;
    var x := After(INITIAL, es);
    if x.loop != Idle || DeliveryBusy(x) { SoundGoesOn(x); }
  }

  // ---- How it comes about ----

  /** The waits are crossed by exactly two steps: the enable or disable function comes to the table while a matching event
      waits for the module, or a matching event gets to the table before the function that has come to it. */
  lemma CrossedExactlyBy(x: State, e: Event)
    requires Sound(x) && !Crossed(x) && Allowed(x, e)
    ensures Crossed(Step(x, e))
       <==> (e == LoopComes && x.delivery.Holding? && x.delivery.kind == X.EventKind)
            || (e.TakesTable? && e.turns > 0 && LoopInside(x) && x.loop.table == Coming)
  {
  }

  /** The mutex is left locked by exactly two steps: the end of a request that found the module not enabled, and the end of a
      change of state on which the module threw. */
  lemma LeftLockedExactlyBy(x: State, e: Event)
    requires Sound(x) && !LeftLocked(x) && Allowed(x, e)
    ensures LeftLocked(Step(x, e))
       <==> e.DeliveryDone? && ((x.delivery.kind == X.RequestKind && !x.enabled) || (x.delivery.kind == X.StateKind && e.throws))
  {
  }

  /** A request may be delivered between starting the dispatcher and enabling the module, or between disabling the module and
      stopping the dispatcher. */
  lemma RequestLocksOut(x: State)
    requires Sound(x) && x.alive && !x.enabled && x.delivery == Waiting && x.owner == None
    ensures x.loop == ToEnable || x.loop == ToStop
    ensures Allowed(x, Take(X.RequestKind))
    ensures var y := Step(x, Take(X.RequestKind));
            && Allowed(y, DeliveryLocks) && Allowed(Step(y, DeliveryLocks), DeliveryDone(false))
            && LeftLocked(Step(Step(y, DeliveryLocks), DeliveryDone(false)))
  {
  }

  /** A callback for an event that subscribes or unsubscribes waits for the table its own delivery has locked: the module is
      never switched off again. */
  lemma SubscribingInCallbackWedges(x: State)
    requires Sound(x) && x.enabled && x.delivery.Inside? && x.delivery.kind == X.EventKind
    ensures Allowed(x, CallbackComes) && x.tableOwner == Some(Delivery)
    ensures Barred(Step(x, CallbackComes), false)
  {
  }

  /** An enable or disable function that subscribes while a matching event is delivered, the delivery thread being free
      before: the waits are crossed, and the module comes to be neither on nor off. */
  lemma SubscribingCrosses(x: State)
    requires Sound(x) && LoopInside(x) && x.loop.table == Away && x.delivery == Waiting
    ensures Allowed(x, Take(X.EventKind))
    ensures var y := Step(x, Take(X.EventKind));
            && Allowed(y, TakesTable(1)) && Allowed(Step(y, TakesTable(1)), LoopComes)
            && var z := Step(Step(y, TakesTable(1)), LoopComes);
               Crossed(z) && Barred(z, true) && Barred(z, false)
  {
    OwnerIsThread(x.tableOwner);
  }

  lemma Prepend(x: State, e: Event, rest: seq<Event>)
    requires Allowed(x, e) && Runs(Step(x, e), rest)
    ensures Runs(x, [e] + rest) && After(x, [e] + rest) == After(Step(x, e), rest)
  {
    hide Step, Allowed;
    assert ([e] + rest)[1..] == rest;
  }

  /** It is reached as soon as the module is first enabled. */
  lemma FirstEnablingCanCross()
    ensures var es := [BeginEnable, LoopLocks, Take(X.EventKind), TakesTable(1), LoopComes];
            Runs(INITIAL, es) && Crossed(After(INITIAL, es))
  {
    var x1 := Step(INITIAL, BeginEnable);
    var x2 := Step(x1, LoopLocks);
    var x3 := Step(x2, Take(X.EventKind));
    var x4 := Step(x3, TakesTable(1));
    var x5 := Step(x4, LoopComes);
    assert Runs(x5, []) && After(x5, []) == x5 && Crossed(x5);
    hide Runs, After;
    Prepend(x4, LoopComes, []);
    Prepend(x3, TakesTable(1), [LoopComes] + []);
    Prepend(x2, Take(X.EventKind), [TakesTable(1)] + ([LoopComes] + []));
    Prepend(x1, LoopLocks, [Take(X.EventKind)] + ([TakesTable(1)] + ([LoopComes] + [])));
    var rest := [LoopLocks] + ([Take(X.EventKind)] + ([TakesTable(1)] + ([LoopComes] + [])));
    Prepend(INITIAL, BeginEnable, rest);
    assert [BeginEnable] + rest == [BeginEnable, LoopLocks, Take(X.EventKind), TakesTable(1), LoopComes];
  }

  // ---- Turns ----

  /** The turns of an event: lock the module, call or pass over, unlock. */
  function Turns(n: nat): seq<Event>
    decreases n
  {
    if n == 0 then [] else [DeliveryLocks, DeliveryDone(false)] + Turns(n - 1)
  }

  /** A matching event gets every one of its turns, if nobody takes the module in between, and is over after them. */
  lemma {:induction false} EveryTurnComes(x: State, n: nat)
    requires n > 0 && x.delivery == Holding(X.EventKind, n) && x.owner == None
    ensures Runs(x, Turns(n)) && After(x, Turns(n)) == x.(delivery := Leaving)
    decreases n
  {
    var rest := Turns(n - 1);
    var y := Step(x, DeliveryLocks);
    var z := Step(y, DeliveryDone(false));
    assert z == x.(delivery := if n > 1 then Holding(X.EventKind, n - 1) else Leaving);
    if n > 1 { EveryTurnComes(z, n - 1); }
    assert Runs(z, rest) && After(z, rest) == x.(delivery := Leaving);
    var late := [DeliveryDone(false)] + rest;
    assert late[1..] == rest;
    assert Runs(y, late) && After(y, late) == After(z, rest);
    assert Turns(n)[1..] == late;
  }

  /** After the dispatcher was stopped, a delivery thread that comes back to its head ends, until the next enabling. */
  lemma StoppedDeliveryEnds(x: State, e: Event)
    requires Allowed(x, e) && !x.alive && x.delivery != Waiting && !e.BeginEnable?
    ensures Step(x, e).delivery != Waiting && !Step(x, e).alive
    ensures e.LeavesTable? || (e.DeliveryDone? && x.delivery.kind != X.EventKind) ==> Step(x, e).delivery == Gone
  {
  }
}
