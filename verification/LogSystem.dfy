/**
  Any number of loggers with their buffer objects, the shared list and the worker, under every interleaving
  of the producers' steps with the worker's (log/AsyncLogger.cpp, log/AsyncLogging.cpp).
 */
module LogSystems {
  import opened AsyncLoggers
  import opened AsyncLoggings
  import opened LogSpec
  import opened Seqs

  /** No logger holds a buffer twice, and no two hold the same one. */
  ghost predicate Apart(loggers: seq<AsyncLogger>)
    reads loggers
  {
    && (forall i :: 0 <= i < |loggers| ==> loggers[i].Valid())
    && (forall i, j :: 0 <= i < |loggers| && 0 <= j < |loggers| && i != j ==>
         loggers[i].Buffers() !! loggers[j].Buffers())
  }

  ghost function AllBuffers(loggers: seq<AsyncLogger>): set<LogBuffer>
    reads loggers
  {
    set l, b | l in loggers && b in l.Buffers() :: b
  }

  lemma OneMore(loggers: seq<AsyncLogger>, l: AsyncLogger)
    requires Apart(loggers) && l.Valid() && l.Buffers() !! AllBuffers(loggers)
    ensures Apart(loggers + [l]) && AllBuffers(loggers + [l]) == AllBuffers(loggers) + l.Buffers()
  {
    hide AsyncLogger.Buffers, AsyncLogger.Valid;
    var more := loggers + [l];
    assert more[|loggers|] == l && forall k :: 0 <= k < |loggers| ==>
             more[k] == loggers[k] && loggers[k].Buffers() <= AllBuffers(loggers);
  }

  method MakeLoggers(settings: seq<(nat, int)>) returns (loggers: seq<AsyncLogger>)
    requires forall i :: 0 <= i < |settings| ==> settings[i].1 > 0
    ensures |loggers| == |settings| && NoDuplicates(loggers) && Apart(loggers)
    ensures Show(loggers, InitialStates(settings))
    ensures fresh(AllBuffers(loggers)) && forall k :: 0 <= k < |loggers| ==> fresh(loggers[k])
  {
    hide AsyncLogger.State, AsyncLogger.Held, AsyncLogger.Valid, NewLogger;
    loggers := [];
    for i := 0 to |settings|
      invariant |loggers| == i && NoDuplicates(loggers) && Apart(loggers)
      invariant forall k :: 0 <= k < i ==>
                  fresh(loggers[k]) && loggers[k].Shows(NewLogger(settings[k].0, settings[k].1))
      invariant forall b :: b in AllBuffers(loggers) ==> fresh(b)
    {
      ghost var before := AllBuffers(loggers);
      AllThere(loggers);
      var l := new AsyncLogger(settings[i].0, settings[i].1);
      assert forall b :: b in l.Buffers() ==> b in l.Held();
      assert l.Buffers() !! before;
      OneMore(loggers, l);
      loggers := loggers + [l];
    }
  }

  function InitialStates(settings: seq<(nat, int)>): seq<Logger> {
    seq(|settings|, i requires 0 <= i < |settings| => NewLogger(settings[i].0, settings[i].1))
  }

  lemma StartsFresh(settings: seq<(nat, int)>)
    requires forall i :: 0 <= i < |settings| ==> settings[i].1 > 0
    ensures Started(System(InitialStates(settings), [], [], Writing(0)))
  {
    var states := InitialStates(settings);
    forall i | 0 <= i < |states|
      ensures AsConstructed(states[i])
    {
      var rollSize: nat, now := settings[i].0, settings[i].1;
      assert now > 0 && states[i] == NewLogger(rollSize, now);
    }
  }

  lemma AllThere(loggers: seq<AsyncLogger>)
    ensures forall b :: b in AllBuffers(loggers) ==> allocated(b)
  {
    forall b | b in AllBuffers(loggers)
      ensures allocated(b)
    {
      var k :| 0 <= k < |loggers| && b in loggers[k].Buffers();
      loggers[k].AllThere();
    }
  }

  /** Every logger is as in `states`. */
  ghost predicate Show(loggers: seq<AsyncLogger>, states: seq<Logger>)
    reads loggers, AllBuffers(loggers)
  {
    |states| == |loggers| && forall i :: 0 <= i < |loggers| ==> loggers[i].Shows(states[i])
  }

  ghost function HeldBy(loggers: seq<AsyncLogger>): (held: seq<set<LogBuffer>>)
    reads loggers
  {
    seq(|loggers|, i requires 0 <= i < |loggers| reads loggers => loggers[i].Buffers())
  }

  /** What the invariant says of each logger. */
  lemma EachLogger(loggers: seq<AsyncLogger>, states: seq<Logger>)
    requires NoDuplicates(loggers) && Apart(loggers) && Show(loggers, states)
    ensures |states| == |loggers| && |HeldBy(loggers)| == |loggers|
    ensures forall i :: 0 <= i < |loggers| ==>
              loggers[i].Valid() && loggers[i].Shows(states[i])
                && HeldBy(loggers)[i] == loggers[i].Buffers() <= AllBuffers(loggers)
    ensures forall i, j :: 0 <= i < |loggers| && 0 <= j < |loggers| && i != j ==>
              loggers[i] != loggers[j] && HeldBy(loggers)[i] !! HeldBy(loggers)[j]
    ensures forall b :: b in AllBuffers(loggers) ==> allocated(b)
  {
    hide AsyncLogger.Buffers, AsyncLogger.Valid, AsyncLogger.Shows;
    AllThere(loggers);
  }

  lemma CollectNotDue(s: System)
    requires IdsOk(s) && s.batch != []
    ensures Next(s, Collect) == Running(s)
  {
  }

  /** One logger changed, and holds buffers that it held before and new ones: all are still apart. */
  lemma StillApart(loggers: seq<AsyncLogger>, states: seq<Logger>, held: seq<set<LogBuffer>>, before: set<LogBuffer>,
                   id: nat, l: Logger)
    requires |states| == |held| == |loggers| && id < |loggers| && loggers[id].Valid() && loggers[id].Shows(l)
    requires forall i, j :: 0 <= i < |held| && 0 <= j < |held| && i != j ==> held[i] !! held[j]
    requires forall j :: 0 <= j < |held| ==> held[j] <= before
    requires forall b :: b in loggers[id].Buffers() ==> b in held[id] || b !in before
    requires forall j :: 0 <= j < |loggers| && j != id ==>
               loggers[j].Valid() && loggers[j].Buffers() == held[j] && loggers[j].Shows(states[j])
    ensures Apart(loggers) && Show(loggers, states[id := l])
    ensures AllBuffers(loggers) <= before + loggers[id].Buffers()
  {
    hide AsyncLogger.Valid, AsyncLogger.Shows, AsyncLogger.Buffers;
    forall i, j | 0 <= i < |loggers| && 0 <= j < |loggers| && i != j
      ensures loggers[i].Buffers() !! loggers[j].Buffers()
    {
      assert held[i] !! held[j];
    }
  }

  /** Every logger holds what it held before. */
  lemma AllStay(loggers: seq<AsyncLogger>, states: seq<Logger>, held: seq<set<LogBuffer>>, before: set<LogBuffer>)
    requires |states| == |held| == |loggers|
    requires forall i, j :: 0 <= i < |held| && 0 <= j < |held| && i != j ==> held[i] !! held[j]
    requires forall j :: 0 <= j < |held| ==> held[j] <= before
    requires forall j :: 0 <= j < |loggers| ==>
               loggers[j].Valid() && loggers[j].Buffers() == held[j] && loggers[j].Shows(states[j])
    ensures Apart(loggers) && Show(loggers, states) && AllBuffers(loggers) <= before
  {
    hide AsyncLogger.Valid, AsyncLogger.Shows, AsyncLogger.Buffers;
    forall i, j | 0 <= i < |loggers| && 0 <= j < |loggers| && i != j
      ensures loggers[i].Buffers() !! loggers[j].Buffers()
    {
      assert held[i] !! held[j];
    }
  }

  /** What the worker finds when it collects. */
  lemma CollectFinds(loggers: seq<AsyncLogger>, list: seq<AsyncLogger>, s: System)
    requires Inv(s) && s.batch == [] && |s.loggers| == |loggers| && Numbered(loggers, s.registered, list)
    requires forall i, j :: 0 <= i < |loggers| && 0 <= j < |loggers| && i != j ==> loggers[i] != loggers[j]
    ensures forall i :: 0 <= i < |list| ==>
              s.registered[i] < |loggers| && list[i] == loggers[s.registered[i]] && SwapSafe(s.loggers[s.registered[i]])
    ensures |list| == |s.registered| && forall i, j :: 0 <= i < j < |list| ==> list[i] != list[j]
    ensures forall j :: 0 <= j < |loggers| ==> (loggers[j] in list <==> j in s.registered)
    ensures IdsOk(s) && Next(s, Collect).Running?
    ensures var t := Next(s, Collect).s;
            && t.registered == [] && t.batch == s.registered && t.pc == Writing(0) && |t.loggers| == |loggers|
            && forall j :: 0 <= j < |loggers| ==>
                 t.loggers[j] == if j in s.registered then Swap(s.loggers[j]) else s.loggers[j]
  {
    hide Swap, SwapAll, RollerOk;
    SwapAllOk(s.loggers, s.registered);
  }

  /** What a step of the worker does to the logger it works on. */
  datatype Effect = Effect(l: Logger, pc: Pc, done: bool)

  function EffectOf(pc: Pc, l: Logger, step: Step): Effect
    requires |l.roller.files| >= 1 && Recyclable(l)
  {
    match pc
    case Writing(k) =>
      if !step.Write? then Effect(l, pc, false)
      else if k >= |l.toWrite| then Effect(l, Reusing1, false)
      else Effect(l.(roller := AppendFile(l.roller, l.toWrite[k], step.checked, step.rolled)), Writing(k + 1), false)
    case Reusing1 => if step.Recycle1? then Effect(ReuseFirst(l), Reusing2, false) else Effect(l, pc, false)
    case Reusing2 => if step.Recycle2? then Effect(ReuseSecond(l), Clearing, false) else Effect(l, pc, false)
    case Clearing => if step.Clear? then Effect(l.(toWrite := []), Writing(0), true) else Effect(l, pc, false)
  }

  lemma EffectIsNext(s: System, step: Step)
    requires Inv(s) && s.batch != []
    ensures IdsOk(s) && Recyclable(s.loggers[s.batch[0]]) && |s.loggers[s.batch[0]].roller.files| >= 1
    ensures PcOk(s.pc, s.loggers[s.batch[0]])
    ensures var e := EffectOf(s.pc, s.loggers[s.batch[0]], step);
            WorkerNext(s, step) == Running(s.(loggers := s.loggers[s.batch[0] := e.l], pc := e.pc,
                                              batch := if e.done then s.batch[1..] else s.batch))
  {
    hide AppendFile, RollerOk, ProducerOk, Idle, NoDuplicates;
    assert s.loggers[s.batch[0] := s.loggers[s.batch[0]]] == s.loggers;
  }

  class LogSystem {
    const logging: AsyncLogging
    const loggers: seq<AsyncLogger>
    var asyncLoggersToWrite: seq<AsyncLogger>   // what is left of the worker's batch
    var pc: Pc
    ghost var system: System

    ghost predicate Valid()
      reads this, logging, loggers, AllBuffers(loggers)
    {
      && NoDuplicates(loggers) && Apart(loggers) && Inv(system) && pc == system.pc
      && Numbered(loggers, system.registered, logging.asyncLoggers)
      && Numbered(loggers, system.batch, asyncLoggersToWrite)
      && Show(loggers, system.loggers)
    }

    constructor (loggers: seq<AsyncLogger>, ghost states: seq<Logger>)
      requires NoDuplicates(loggers) && Apart(loggers) && Show(loggers, states)
      requires Started(System(states, [], [], Writing(0)))
      ensures Valid() && this.loggers == loggers && system == System(states, [], [], Writing(0))
      ensures fresh(logging)
    {
      hide AsyncLogger.Shows, AsyncLogger.Buffers, AsyncLogger.Valid, Inv, Started;
      EachLogger(loggers, states);
      StartedOk(System(states, [], [], Writing(0)));
      logging := new AsyncLogging();
      this.loggers := loggers;
      asyncLoggersToWrite, pc := [], Writing(0);
      system := System(states, [], [], Writing(0));
      new;
      forall i | 0 <= i < |loggers|
        ensures loggers[i].Shows(states[i])
      {
        loggers[i].Untouched();
      }
    }

    ghost function Memory(): set<object>
      reads this, loggers
    {
      {this, logging} + (set l | l in loggers) + AllBuffers(loggers)
    }

    /** A producer's step. */
    method Append(id: nat, line: string)
      requires Valid() && id < |loggers|
      modifies Memory()
      ensures IdsOk(old(system)) && Next(old(system), Step.Append(id, line)) == Running(system)
      ensures Valid() && forall b :: b in AllBuffers(loggers) ==> b in old(AllBuffers(loggers)) || fresh(b)
    {
      hide AllBuffers, AsyncLogger.State, AsyncLogger.Held, AsyncLogger.Valid, AsyncLogger.Shows, Inv, HeldBy,
           AppendLine, Apart, Show, NoDuplicates, Numbered;
      ghost var s, before, held := system, AllBuffers(loggers), HeldBy(loggers);
      EachLogger(loggers, s.loggers);
      InvIds(s);
      NextKeepsInv(s, Step.Append(id, line));
      NumberedMore(loggers, s.registered, logging.asyncLoggers, id);
      loggers[id].HoldsAll();
      loggers[id].ShownFields(s.loggers[id]);
      logging.Append(loggers[id], line);
      loggers[id].Showing();
      forall j | 0 <= j < |loggers| && j != id
        ensures loggers[j].Valid() && loggers[j].Buffers() == held[j] && loggers[j].Shows(s.loggers[j])
      {
        assert held[id] !! held[j];
        loggers[j].Untouched();
      }
      ghost var l := AppendLine(s.loggers[id], line);
      StillApart(loggers, s.loggers, held, before, id, l);
      system := Next(s, Step.Append(id, line)).s;
    }

    /** The worker takes the list, if it is through with the one before. */
    method CollectLoggers()
      requires Valid()
      modifies Memory()
      ensures IdsOk(old(system)) && Next(old(system), Collect) == Running(system)
      ensures Valid() && forall b :: b in AllBuffers(loggers) ==> b in old(AllBuffers(loggers)) || fresh(b)
    {
      hide Inv, Apart, Show, NoDuplicates, Numbered, Next;
      InvIds(system);
      NumberedSize(loggers, system.batch, asyncLoggersToWrite);
      if asyncLoggersToWrite == [] {
        CollectDue();
      } else {
        CollectNotDue(system);
      }
    }

    /** The list changes hands; the loggers on it are swapped and all others are left alone. */
    method TakeList(ghost after: seq<Logger>)
      requires forall j :: 0 <= j < |loggers| ==> loggers[j].Valid()
      requires forall i :: 0 <= i < |logging.asyncLoggers| ==>
                 logging.asyncLoggers[i].Valid() && SwapSafe(logging.asyncLoggers[i].State())
      requires forall i, j :: 0 <= i < j < |logging.asyncLoggers| ==> logging.asyncLoggers[i] != logging.asyncLoggers[j]
      requires |after| == |loggers|
      requires forall j :: 0 <= j < |loggers| ==>
                 var l := loggers[j].State(); after[j] == if loggers[j] in logging.asyncLoggers then Swap(l) else l
      modifies `asyncLoggersToWrite, `pc, logging, logging.asyncLoggers
      ensures asyncLoggersToWrite == old(logging.asyncLoggers) && logging.asyncLoggers == [] && pc == Writing(0)
      ensures forall j :: 0 <= j < |loggers| ==>
                loggers[j].Valid() && loggers[j].Buffers() == old(loggers[j].Buffers()) && loggers[j].Shows(after[j])
    {
      hide AsyncLogger.State, AsyncLogger.Held, AsyncLogger.Buffers, AsyncLogger.Valid, AsyncLogger.Shows, Swap,
           SwapSafe;
      forall j | 0 <= j < |loggers|
        ensures loggers[j].Shows(loggers[j].State()) && forall b :: b in loggers[j].Buffers() ==> allocated(b)
      {
        loggers[j].Showing();
        loggers[j].AllThere();
      }
      asyncLoggersToWrite := logging.SwapAsyncLoggersToWrite();
      pc := Writing(0);
      forall j | 0 <= j < |loggers|
        ensures loggers[j].Valid() && loggers[j].Buffers() == old(loggers[j].Buffers()) && loggers[j].Shows(after[j])
      {
        loggers[j].Showing();
        if loggers[j] !in asyncLoggersToWrite { loggers[j].Untouched(); }
      }
    }

    method CollectDue()
      requires Valid() && asyncLoggersToWrite == []
      modifies Memory()
      ensures IdsOk(old(system)) && Next(old(system), Collect) == Running(system)
      ensures Valid() && AllBuffers(loggers) <= old(AllBuffers(loggers))
    {
      hide AllBuffers, AsyncLogger.State, AsyncLogger.Held, AsyncLogger.Buffers, AsyncLogger.Valid,
           AsyncLogger.Shows, Inv, HeldBy, Swap, Apart, Show, NoDuplicates, Numbered, Next, SwapSafe;
      ghost var s, before, held := system, AllBuffers(loggers), HeldBy(loggers);
      EachLogger(loggers, s.loggers);
      NumberedSize(loggers, s.batch, asyncLoggersToWrite);
      CollectFinds(loggers, logging.asyncLoggers, s);
      NextKeepsInv(s, Collect);
      ghost var t := Next(s, Collect).s;
      forall j | 0 <= j < |loggers|
        ensures loggers[j].State() == s.loggers[j]
      {
        loggers[j].ShownFields(s.loggers[j]);
      }
      TakeList(t.loggers);
      AllStay(loggers, t.loggers, held, before);
      NumberedNone(loggers);
      system := t;
    }

    /** What the worker's step does to the logger and its buffers. */
    method WorkOn(l: AsyncLogger, step: Step, ghost a: Logger) returns (done: bool)
      requires l.Valid() && l.Shows(a) && Recyclable(a) && |a.roller.files| >= 1 && PcOk(pc, a)
      modifies this`pc, l, l.Buffers()
      ensures l.Valid() && l.Buffers() <= old(l.Buffers())
      ensures l.State() == EffectOf(old(pc), a, step).l && pc == EffectOf(old(pc), a, step).pc
      ensures done == EffectOf(old(pc), a, step).done
    {
      hide AsyncLogger.State, AsyncLogger.Held, AsyncLogger.Valid, AsyncLogger.Shows, AppendFile, ReuseFirst,
           ReuseSecond;
      l.ShownFields(a);
      l.HoldsAll();
      done := false;
      match pc {
        case Writing(k) =>
          if step.Write? {
            if k >= |l.buffersToWrite| {
              pc := Reusing1;
            } else {
              l.WriteStep(k, step.checked, step.rolled, a);
              pc := Writing(k + 1);
            }
          }
        case Reusing1 =>
          if step.Recycle1? {
            if l.buffer1 == null { l.RecycleFirst(); } else { l.SpareThere(a); }
            pc := Reusing2;
          }
        case Reusing2 =>
          if step.Recycle2? {
            if l.buffer2 == null { l.RecycleSecond(); } else { l.SpareThere(a); }
            pc := Clearing;
          }
        case Clearing =>
          if step.Clear? {
            l.ClearWritten();
            pc := Writing(0);
            done := true;
          }
      }
    }

    /** Any step of the worker on its batch, outside the mutex. */
    method Work(step: Step)
      requires Valid() && !step.Append? && !step.Collect?
      modifies Memory()
      ensures IdsOk(old(system)) && Next(old(system), step) == Running(system)
      ensures Valid() && forall b :: b in AllBuffers(loggers) ==> b in old(AllBuffers(loggers)) || fresh(b)
    {
      hide AllBuffers, AsyncLogger.State, AsyncLogger.Held, AsyncLogger.Valid, AsyncLogger.Shows, Inv, HeldBy,
           Apart, Show, NoDuplicates, Numbered, EffectOf, WorkerNext, PcOk, Recyclable;
      ghost var s, before, held := system, AllBuffers(loggers), HeldBy(loggers);
      EachLogger(loggers, s.loggers);
      InvIds(s);
      NextKeepsInv(s, step);
      NumberedSize(loggers, s.batch, asyncLoggersToWrite);
      if asyncLoggersToWrite != [] {
        EffectIsNext(s, step);
        NumberedFirst(loggers, s.batch, asyncLoggersToWrite);
        ghost var id := s.batch[0];
        ghost var e := EffectOf(s.pc, s.loggers[id], step);
        var done := WorkOn(asyncLoggersToWrite[0], step, s.loggers[id]);
        loggers[id].Showing();
        forall j | 0 <= j < |loggers| && j != id
          ensures loggers[j].Valid() && loggers[j].Buffers() == held[j] && loggers[j].Shows(s.loggers[j])
        {
          assert held[id] !! held[j];
          loggers[j].Untouched();
        }
        StillApart(loggers, s.loggers, held, before, id, e.l);
        if done { asyncLoggersToWrite := asyncLoggersToWrite[1..]; }
        system := Next(s, step).s;
      }
    }

    /** One step of whoever's turn it is. */
    method Perform(step: Step)
      requires Valid()
      modifies Memory()
      ensures IdsOk(old(system)) && Next(old(system), step) == Running(system)
      ensures Valid() && forall b :: b in AllBuffers(loggers) ==> b in old(AllBuffers(loggers)) || fresh(b)
    {
      hide Inv, Apart, Show, NoDuplicates, Numbered;
      InvIds(system);
      match step {
        case Append(id, line) =>
          Sizes();
          if id < |loggers| { Append(id, line); }
        case Collect => CollectLoggers();
        case Write(_, _) => Work(step);
        case Recycle1 => Work(step);
        case Recycle2 => Work(step);
        case Clear => Work(step);
      }
    }

    lemma Sizes()
      requires Valid()
      ensures |system.loggers| == |loggers| && Inv(system) && Apart(loggers)
    {
    }

    /** Under every schedule of any number of producers and the worker the objects do what `LogSpec.Run`
        says, so that all that is proved there holds of them; and in every state no buffer is held twice,
        by one logger or by two. */
    method Run(steps: seq<Step>)
      requires Valid()
      modifies Memory()
      ensures Inv(old(system)) && LogSpec.Run(old(system), steps) == Running(system)
      ensures Valid() && Apart(loggers)
    {
      hide LogSystem.Valid, Inv, Apart, Next, AllBuffers;
      ghost var s := system;
      Sizes();
      for i := 0 to |steps|
        invariant Valid() && forall b :: b in AllBuffers(loggers) ==> b in old(AllBuffers(loggers)) || fresh(b)
        invariant Inv(s) && Inv(system) && LogSpec.Run(system, steps[i..]) == LogSpec.Run(s, steps)
      {
        ghost var before := AllBuffers(loggers);
        assert steps[i..][0] == steps[i] && steps[i..][1..] == steps[i + 1..];
        NextKeepsInv(system, steps[i]);
        Perform(steps[i]);
        assert forall b :: b in AllBuffers(loggers) ==> b in before || fresh(b);
        Sizes();
      }
      Sizes();
    }
  }

  /** Loggers as constructed, with their roll sizes and the times at which their first files are opened. */
  method Start(settings: seq<(nat, int)>) returns (system: LogSystem)
    requires forall i :: 0 <= i < |settings| ==> settings[i].1 > 0
    ensures fresh(system) && system.Valid() && Started(system.system) && |system.loggers| == |settings|
    ensures fresh(system.Memory())
  {
    hide Started, InitialStates, Inv, Apart, Show, NoDuplicates, LogSystem.Valid, AllBuffers;
    var loggers := MakeLoggers(settings);
    StartsFresh(settings);
    system := new LogSystem(loggers, InitialStates(settings));
  }
}
