/**
  The asynchronous logging protocol as interleaved steps: producers append under the mutex, one worker
  swaps buffers under the mutex and writes and recycles them outside it (log/AsyncLogger.cpp,
  log/AsyncLogging.cpp).
 */
module LogSpec {
  import opened Arith
  import opened Seqs

  const BUFFER_SIZE: nat := 4096 * 1024
  const CHECK_TIME_ROLL: nat := 1024
  const ROLL_PER_SECONDS: nat := 60 * 60 * 24

  datatype Option<T> = None | Some(value: T)

  // ---------- log files ----------

  datatype File = File(since: int, text: string)

  /** The files of one logger, the current one last; `count` counts appends since the clock was looked at. */
  datatype Roller = Roller(files: seq<File>, rollSize: nat, count: nat, startOfPeriod: int, lastRoll: int)

  function Period(now: int): int {
    TruncDiv(now, ROLL_PER_SECONDS) * ROLL_PER_SECONDS
  }

  function Roll(r: Roller, now: int): Roller {
    if now > r.lastRoll then
      r.(files := r.files + [File(now, "")], lastRoll := now, startOfPeriod := Period(now))
    else r
  }

  function Current(r: Roller): File
    requires |r.files| >= 1
  {
    r.files[|r.files| - 1]
  }

  /** `append_unlocked`: `checked` and `rolled` are the two readings of the clock it may take. */
  function AppendFile(r: Roller, text: string, checked: int, rolled: int): Roller
    requires |r.files| >= 1
  {
    var file := File(Current(r).since, Current(r).text + text);
    var w := r.(files := r.files[|r.files| - 1 := file]);
    if |file.text| > r.rollSize then Roll(w.(count := 0), rolled)
    else if r.count <= CHECK_TIME_ROLL then w.(count := r.count + 1)
    else if Period(checked) != r.startOfPeriod then Roll(w.(count := 0), rolled)
    else w.(count := 0)
  }

  function Texts(files: seq<File>): string {
    if files == [] then [] else Texts(files[..|files| - 1]) + files[|files| - 1].text
  }

  /** The last file was opened last, at the last roll, in the period on record. */
  ghost predicate RollerOk(r: Roller) {
    && |r.files| >= 1
    && (forall i, j :: 0 <= i < j < |r.files| ==> r.files[i].since < r.files[j].since)
    && Current(r).since == r.lastRoll && r.startOfPeriod == Period(r.lastRoll)
  }

  lemma RollKeeps(r: Roller, now: int)
    requires RollerOk(r)
    ensures RollerOk(Roll(r, now)) && Texts(Roll(r, now).files) == Texts(r.files)
  {
    var q := Roll(r, now);
    if now > r.lastRoll {
      assert q.files[..|q.files| - 1] == r.files;
      assert Texts(r.files) + "" == Texts(r.files);
    }
  }

  lemma LastText(files: seq<File>)
    requires |files| >= 1
    ensures Texts(files) == Texts(files[..|files| - 1]) + files[|files| - 1].text
  {
  }

  /** Whatever the clock does, the concatenated files grow by exactly the appended text, and no two files
      are opened at the same time. */
  lemma AppendFileWrites(r: Roller, text: string, checked: int, rolled: int)
    requires RollerOk(r)
    ensures RollerOk(AppendFile(r, text, checked, rolled))
    ensures Texts(AppendFile(r, text, checked, rolled).files) == Texts(r.files) + text
  {
    hide Period, Texts;
    var n := |r.files| - 1;
    var file := File(Current(r).since, Current(r).text + text);
    var w := r.(files := r.files[n := file]);
    assert w.files[..n] == r.files[..n];
    LastText(r.files);
    LastText(w.files);
    ConcatAssoc(Texts(r.files[..n]), Current(r).text, text);
    RollKeeps(w.(count := 0), rolled);
  }

  /** When a file is opened: exactly if the clock is past the last roll and the current file has passed the
      roll size, or 1024 appends have gone by uncounted by the clock and it is another day than at the last
      roll.  Otherwise nothing changes but the current file's text and the count. */
  lemma RollsIff(r: Roller, text: string, checked: int, rolled: int)
    requires RollerOk(r)
    ensures var q := AppendFile(r, text, checked, rolled);
            var size, n := |Current(r).text| + |text|, |r.files| - 1;
            var day := 24 * 60 * 60;
            var due := size > r.rollSize || (r.count > 1024 && TruncDiv(checked, day) != TruncDiv(r.lastRoll, day));
            && |q.files| == |r.files| + (if due && rolled > r.lastRoll then 1 else 0)
            && q.files[..n] == r.files[..n] && q.files[n] == File(Current(r).since, Current(r).text + text)
            && q.lastRoll == (if due && rolled > r.lastRoll then rolled else r.lastRoll) && q.rollSize == r.rollSize
            && (|q.files| > |r.files| ==> Current(q) == File(rolled, ""))
            && q.count == (if size > r.rollSize || r.count > 1024 then 0 else r.count + 1)
  {
    hide TruncDiv;
    PeriodIsDay(checked, r.lastRoll);
  }

  /** Two times are in the same period exactly when they are on the same day. */
  lemma PeriodIsDay(a: int, b: int)
    ensures var day := 24 * 60 * 60; Period(a) == Period(b) <==> TruncDiv(a, day) == TruncDiv(b, day)
  {
    hide TruncDiv;
  }

  // ---------- one logger ----------

  /** Buffers are their contents; `None` is a null pointer. */
  datatype Logger = Logger(
    current: string, next: Option<string>, buffers: seq<string>, toWrite: seq<string>,
    buffer1: Option<string>, buffer2: Option<string>, notEmpty: bool, roller: Roller)

  /** `Buffer::append`, which drops what does not fit. */
  function Fill(buffer: string, line: string): string {
    if |buffer| + |line| < BUFFER_SIZE then buffer + line else buffer
  }

  function AppendLine(l: Logger, line: string): Logger {
    if |l.current| + |line| < BUFFER_SIZE then l.(current := Fill(l.current, line), notEmpty := true)
    else
      var current := if l.next.Some? then l.next.value else "";
      l.(buffers := l.buffers + [l.current], current := Fill(current, line), next := None, notEmpty := true)
  }

  /** `currentBuffer_ = buffer1_` must not make the current buffer null. */
  predicate SwapSafe(l: Logger) {
    |l.current| > 0 ==> l.buffer1.Some?
  }

  function Swap(l: Logger): Logger
    requires SwapSafe(l)
  {
    var a := if |l.current| == 0 then l
             else l.(buffers := l.buffers + [l.current], current := l.buffer1.value, buffer1 := None);
    var b := if a.next.Some? then a else a.(next := a.buffer2, buffer2 := None);
    b.(buffers := b.toWrite, toWrite := b.buffers, notEmpty := false)
  }

  /** `buffersToWrite_.back()` must not be taken from an empty vector. */
  predicate ReuseSafe(l: Logger, spare: Option<string>) {
    spare.None? ==> l.toWrite != []
  }

  function ReuseFirst(l: Logger): Logger
    requires ReuseSafe(l, l.buffer1)
  {
    if l.buffer1.Some? then l else l.(buffer1 := Some(""), toWrite := l.toWrite[..|l.toWrite| - 1])
  }

  function ReuseSecond(l: Logger): Logger
    requires ReuseSafe(l, l.buffer2)
  {
    if l.buffer2.Some? then l else l.(buffer2 := Some(""), toWrite := l.toWrite[..|l.toWrite| - 1])
  }

  // ---------- the whole system ----------

  /** Where the worker is with the first logger of its batch. */
  datatype Pc = Writing(k: nat) | Reusing1 | Reusing2 | Clearing

  /** Loggers are numbered; `registered` is `asyncLoggers_`, `batch` what is left of the worker's vector. */
  datatype System = System(loggers: seq<Logger>, registered: seq<nat>, batch: seq<nat>, pc: Pc)

  /** `Crashed` stands for a null or empty-vector dereference. */
  datatype World = Running(s: System) | Crashed

  datatype Step =
    | Append(id: nat, line: string)              // any producer, under the mutex
    | Collect                                    // the worker, under the mutex; spurious wakeups included
    | Write(checked: int, rolled: int)           // the worker from here on, outside the mutex
    | Recycle1
    | Recycle2
    | Clear

  ghost predicate IdsOk(s: System) {
    && (forall i :: 0 <= i < |s.registered| ==> s.registered[i] < |s.loggers|)
    && (forall i :: 0 <= i < |s.batch| ==> s.batch[i] < |s.loggers|)
    && (forall i :: 0 <= i < |s.loggers| ==> |s.loggers[i].roller.files| >= 1)
  }

  /** The loop over the batch in `swapAsyncLoggersToWrite`. */
  function SwapAll(loggers: seq<Logger>, ids: seq<nat>): Option<seq<Logger>>
    requires forall i :: 0 <= i < |ids| ==> ids[i] < |loggers|
    decreases |ids|
  {
    if ids == [] then Some(loggers)
    else if !SwapSafe(loggers[ids[0]]) then None
    else SwapAll(loggers[ids[0] := Swap(loggers[ids[0]])], ids[1..])
  }

  /** A step that is not due leaves the system as it is, so that every sequence of steps is a schedule. */
  function Next(s: System, step: Step): World
    requires IdsOk(s)
  {
    match step
    case Append(id, line) =>
      if id >= |s.loggers| then Running(s)
      else
        var registered := if s.loggers[id].notEmpty then s.registered else s.registered + [id];
        Running(s.(loggers := s.loggers[id := AppendLine(s.loggers[id], line)], registered := registered))
    case Collect =>
      if s.batch != [] then Running(s)
      else
        var swapped := SwapAll(s.loggers, s.registered);
        if swapped.None? then Crashed
        else Running(System(swapped.value, [], s.registered, Writing(0)))
    case _ =>
      if s.batch == [] then Running(s) else WorkerNext(s, step)
  }

  function WorkerNext(s: System, step: Step): World
    requires IdsOk(s) && s.batch != []
  {
    var id := s.batch[0];
    var l := s.loggers[id];
    match s.pc
    case Writing(k) =>
      if !step.Write? then Running(s)
      else if k >= |l.toWrite| then Running(s.(pc := Reusing1))
      else
        var w := l.(roller := AppendFile(l.roller, l.toWrite[k], step.checked, step.rolled));
        Running(s.(loggers := s.loggers[id := w], pc := Writing(k + 1)))
    case Reusing1 =>
      if !step.Recycle1? then Running(s)
      else if !ReuseSafe(l, l.buffer1) then Crashed
      else Running(s.(loggers := s.loggers[id := ReuseFirst(l)], pc := Reusing2))
    case Reusing2 =>
      if !step.Recycle2? then Running(s)
      else if !ReuseSafe(l, l.buffer2) then Crashed
      else Running(s.(loggers := s.loggers[id := ReuseSecond(l)], pc := Clearing))
    case Clearing =>
      if !step.Clear? then Running(s)
      else Running(s.(loggers := s.loggers[id := l.(toWrite := [])], batch := s.batch[1..], pc := Writing(0)))
  }

  // ---------- the invariant ----------

  /** Outside a batch both spares are there and empty, and nothing waits to be written. */
  predicate Idle(l: Logger) {
    l.buffer1 == Some("") && l.buffer2 == Some("") && l.toWrite == []
  }

  /** In a batch there is a written buffer to recycle for every spare that was handed out. */
  predicate Recyclable(l: Logger) {
    && (l.buffer1.Some? ==> l.buffer1.value == "")
    && (l.buffer2.Some? ==> l.buffer2.value == "")
    && (if l.buffer1.None? then 1 else 0) + (if l.buffer2.None? then 1 else 0) <= |l.toWrite|
  }

  /** What the producers rely on: a missing next buffer means that full buffers are queued. */
  predicate ProducerOk(l: Logger) {
    && |l.current| < BUFFER_SIZE
    && (l.next.Some? ==> l.next.value == "")
    && (l.next.None? ==> l.buffers != [])
    && (!l.notEmpty ==> l.current == "" && l.buffers == [])
  }

  ghost predicate Inv(s: System) {
    && IdsOk(s) && NoDuplicates(s.registered) && NoDuplicates(s.batch)
    && (forall i :: 0 <= i < |s.loggers| ==> ProducerOk(s.loggers[i]) && RollerOk(s.loggers[i].roller))
    && (forall i :: 0 <= i < |s.loggers| ==> (s.loggers[i].notEmpty <==> i in s.registered))
    && (forall i :: 0 <= i < |s.loggers| && i !in s.batch ==> Idle(s.loggers[i]))
    && (forall j :: 0 <= j < |s.batch| ==> Recyclable(s.loggers[s.batch[j]]))
    && (s.batch != [] ==> PcOk(s.pc, s.loggers[s.batch[0]]))
  }

  predicate PcOk(pc: Pc, l: Logger) {
    match pc
    case Writing(k) => k <= |l.toWrite|
    case Reusing1 => true
    case Reusing2 => l.buffer1.Some?
    case Clearing => l.buffer1.Some? && l.buffer2.Some?
  }

  lemma AppendLineOk(l: Logger, line: string)
    requires ProducerOk(l)
    ensures ProducerOk(AppendLine(l, line)) && AppendLine(l, line).notEmpty
  {
  }

  lemma SwapOk(l: Logger)
    requires ProducerOk(l) && Idle(l)
    ensures SwapSafe(l) && ProducerOk(Swap(l)) && Recyclable(Swap(l))
    ensures !Swap(l).notEmpty && Swap(l).roller == l.roller
  {
  }

  /** Where a line goes: behind the current buffer's text if that leaves a byte of room; otherwise the current
      buffer is full and queued, and the line starts the next buffer if there is one and a new one if not. */
  lemma LinePlaced(l: Logger, line: string)
    requires ProducerOk(l)
    ensures var q := AppendLine(l, line); var fits := |l.current| + |line| < 4096 * 1024;
            && q.current == (if fits then l.current + line else Kept(line))
            && q.buffers == (if fits then l.buffers else l.buffers + [l.current])
            && q.next == (if fits then l.next else None)
            && q == l.(current := q.current, buffers := q.buffers, next := q.next, notEmpty := true)
  {
  }

  /** What the swap leaves: all that was queued, a nonempty current buffer last, is there to be written; the
      spares have taken the places that became free, the first that of the current buffer, the second that of
      a missing next one. */
  lemma SwapMoves(l: Logger)
    requires SwapSafe(l)
    ensures var q := Swap(l); var some := l.current != "";
            && q.toWrite == l.buffers + (if some then [l.current] else []) && q.buffers == l.toWrite
            && q.current == (if some then l.buffer1.value else "") && q.buffer1 == (if some then None else l.buffer1)
            && q.next == (if l.next.Some? then l.next else l.buffer2)
            && q.buffer2 == (if l.next.Some? then l.buffer2 else None)
            && !q.notEmpty && q.roller == l.roller
  {
  }

  lemma {:induction false} SwapAllOk(loggers: seq<Logger>, ids: seq<nat>)
    requires forall i :: 0 <= i < |ids| ==> ids[i] < |loggers| && ProducerOk(loggers[ids[i]]) && Idle(loggers[ids[i]])
    requires NoDuplicates(ids)
    ensures var r := SwapAll(loggers, ids);
            && r.Some? && |r.value| == |loggers|
            && (forall i :: 0 <= i < |loggers| && i !in ids ==> r.value[i] == loggers[i])
            && (forall i :: 0 <= i < |ids| ==> SwapSafe(loggers[ids[i]]) && r.value[ids[i]] == Swap(loggers[ids[i]]))
    decreases |ids|
  {
    if ids != [] {
      var id := ids[0];
      SwapOk(loggers[id]);
      assert id !in ids[1..];
      SwapAllOk(loggers[id := Swap(loggers[id])], ids[1..]);
      var r := SwapAll(loggers, ids).value;
      forall i | 0 <= i < |ids|
        ensures r[ids[i]] == Swap(loggers[ids[i]])
      {
        if i > 0 { assert ids[i] == ids[1..][i - 1]; }
      }
    }
  }

  lemma AppendKeepsInv(s: System, id: nat, line: string)
    requires Inv(s) && id < |s.loggers|
    ensures Next(s, Append(id, line)).Running? && Inv(Next(s, Append(id, line)).s)
  {
    hide AppendLine, RollerOk, ProducerOk, PcOk, NoDuplicates;
    var l, q := s.loggers[id], Next(s, Append(id, line)).s;
    AppendLineOk(l, line);
    AppendLineFrame(l, line);
    PcFrame(s.pc, l, line);
    if id !in s.registered { AddFresh(s.registered, id); }
    assert forall i :: 0 <= i < |s.loggers| && i != id ==> q.loggers[i] == s.loggers[i];
  }

  lemma PcFrame(pc: Pc, l: Logger, line: string)
    ensures PcOk(pc, AppendLine(l, line)) == PcOk(pc, l)
  {
  }

  lemma AppendLineFrame(l: Logger, line: string)
    ensures var a := AppendLine(l, line);
            a.toWrite == l.toWrite && a.buffer1 == l.buffer1 && a.buffer2 == l.buffer2 && a.roller == l.roller
  {
  }

  lemma CollectKeepsInv(s: System)
    requires Inv(s)
    ensures Next(s, Collect).Running? && Inv(Next(s, Collect).s)
  {
    hide Swap, SwapAll, RollerOk;
    if s.batch == [] {
      SwapAllOk(s.loggers, s.registered);
      var q := Next(s, Collect).s;
      forall i | 0 <= i < |s.loggers|
        ensures ProducerOk(q.loggers[i]) && q.loggers[i].roller == s.loggers[i].roller && !q.loggers[i].notEmpty
        ensures if i in s.registered then Recyclable(q.loggers[i]) else Idle(q.loggers[i])
      {
        SwapOk(s.loggers[i]);
      }
    }
  }

  /** The worker touches the first logger of its batch only. */
  lemma WorkerReplaces(s: System, l: Logger, pc: Pc)
    requires Inv(s) && s.batch != []
    requires ProducerOk(l) && RollerOk(l.roller) && Recyclable(l) && PcOk(pc, l)
    requires l.notEmpty == s.loggers[s.batch[0]].notEmpty
    ensures Inv(s.(loggers := s.loggers[s.batch[0] := l], pc := pc))
  {
    hide RollerOk, ProducerOk, Recyclable, Idle, PcOk;
    RollerHasFile(l.roller);
  }

  lemma WorkerFinishes(s: System)
    requires Inv(s) && s.batch != [] && s.pc == Clearing
    ensures var l := s.loggers[s.batch[0]];
            Inv(s.(loggers := s.loggers[s.batch[0] := l.(toWrite := [])], batch := s.batch[1..], pc := Writing(0)))
  {
    hide RollerOk;
    var id := s.batch[0];
    assert forall i :: i in s.batch <==> i == id || i in s.batch[1..];
    assert id !in s.batch[1..];
  }

  lemma WorkerKeepsInv(s: System, step: Step)
    requires Inv(s) && s.batch != []
    ensures WorkerNext(s, step).Running? && Inv(WorkerNext(s, step).s)
  {
    hide AppendFile, RollerOk, NoDuplicates;
    var l := s.loggers[s.batch[0]];
    match s.pc {
      case Writing(k) =>
        if step.Write? && k < |l.toWrite| {
          var roller := AppendFile(l.roller, l.toWrite[k], step.checked, step.rolled);
          AppendFileWrites(l.roller, l.toWrite[k], step.checked, step.rolled);
          WorkerReplaces(s, l.(roller := roller), Writing(k + 1));
        }
      case Reusing1 =>
        if step.Recycle1? { WorkerReplaces(s, ReuseFirst(l), Reusing2); }
      case Reusing2 =>
        if step.Recycle2? { WorkerReplaces(s, ReuseSecond(l), Clearing); }
      case Clearing =>
        if step.Clear? { WorkerFinishes(s); }
    }
  }

  lemma RollerHasFile(r: Roller)
    requires RollerOk(r)
    ensures |r.files| >= 1
  {
  }

  /** Recycling safety and registration exactness, step by step: no step dereferences a null buffer or the
      back of an empty vector, and the invariant is kept. */
  lemma NextKeepsInv(s: System, step: Step)
    requires Inv(s)
    ensures Next(s, step).Running? && Inv(Next(s, step).s)
  {
    match step
    case Append(id, line) => if id < |s.loggers| { AppendKeepsInv(s, id, line); }
    case Collect => CollectKeepsInv(s);
    case Write(_, _) => if s.batch != [] { WorkerKeepsInv(s, step); }
    case Recycle1 => if s.batch != [] { WorkerKeepsInv(s, step); }
    case Recycle2 => if s.batch != [] { WorkerKeepsInv(s, step); }
    case Clear => if s.batch != [] { WorkerKeepsInv(s, step); }
  }

  // ---------- appendBuffers_unlocked in one go ----------

  /** The loop over `buffersToWrite_` from the `k`-th on; `clock[k]` holds the readings of the k-th append. */
  function WriteFrom(l: Logger, k: nat, clock: seq<(int, int)>): (w: Logger)
    requires |l.roller.files| >= 1 && |clock| >= |l.toWrite|
    ensures w == l.(roller := w.roller) && |w.roller.files| >= 1
    decreases |l.toWrite| - k
  {
    if k >= |l.toWrite| then l
    else WriteFrom(l.(roller := AppendFile(l.roller, l.toWrite[k], clock[k].0, clock[k].1)), k + 1, clock)
  }

  function Drained(l: Logger, clock: seq<(int, int)>): Logger
    requires |l.roller.files| >= 1 && |clock| >= |l.toWrite| && Recyclable(l)
  {
    ReuseSecond(ReuseFirst(WriteFrom(l, 0, clock))).(toWrite := [])
  }

  /** The steps by which the worker does that. */
  function WorkerSteps(l: Logger, k: nat, clock: seq<(int, int)>): seq<Step>
    requires |clock| >= |l.toWrite|
    decreases |l.toWrite| - k
  {
    if k >= |l.toWrite| then [Write(0, 0), Recycle1, Recycle2, Clear]
    else [Write(clock[k].0, clock[k].1)] + WorkerSteps(l, k + 1, clock)
  }

  // ---------- when files are rolled ----------

  /** One append after another; `clock[i]` holds the readings of the i-th. */
  function AppendAll(r: Roller, texts: seq<string>, clock: seq<(int, int)>): (q: Roller)
    requires |r.files| >= 1 && |clock| >= |texts|
    ensures |q.files| >= |r.files| && q.rollSize == r.rollSize
    decreases |texts|
  {
    if texts == [] then r
    else AppendAll(AppendFile(r, texts[0], clock[0].0, clock[0].1), texts[1..], clock[1..])
  }

  /** Every roll that falls due finds the clock past the last one. */
  ghost predicate ClockAdvances(r: Roller, texts: seq<string>, clock: seq<(int, int)>)
    requires |r.files| >= 1 && |clock| >= |texts|
    decreases |texts|
  {
    texts != [] ==>
      clock[0].1 > r.lastRoll && ClockAdvances(AppendFile(r, texts[0], clock[0].0, clock[0].1), texts[1..], clock[1..])
  }

  /** The current file is not due, and the others passed the roll size by less than one append. */
  ghost predicate Bounded(r: Roller, longest: nat) {
    && |r.files| >= 1 && |Current(r).text| <= r.rollSize && r.count <= CHECK_TIME_ROLL + 1
    && (forall i :: 0 <= i < |r.files| ==> |r.files[i].text| <= r.rollSize + longest)
  }

  /** Size: the current file never outgrows the roll size, and no file does by more than the text that made
      it due. */
  lemma {:induction false} FilesBounded(r: Roller, texts: seq<string>, clock: seq<(int, int)>, longest: nat)
    requires Bounded(r, longest) && |clock| >= |texts| && ClockAdvances(r, texts, clock)
    requires forall i :: 0 <= i < |texts| ==> |texts[i]| <= longest
    ensures Bounded(AppendAll(r, texts, clock), longest)
    decreases |texts|
  {
    if texts != [] {
      AppendBounded(r, texts[0], clock[0].0, clock[0].1, longest);
      FilesBounded(AppendFile(r, texts[0], clock[0].0, clock[0].1), texts[1..], clock[1..], longest);
    }
  }

  lemma AppendBounded(r: Roller, text: string, checked: int, rolled: int, longest: nat)
    requires Bounded(r, longest) && |text| <= longest && rolled > r.lastRoll
    ensures Bounded(AppendFile(r, text, checked, rolled), longest)
  {
    hide Period;
  }

  /** Time: once the clock is in another period, at most `CHECK_TIME_ROLL` + 1 more appends go to the old file. */
  lemma {:induction false} PeriodRolls(r: Roller, texts: seq<string>, clock: seq<(int, int)>)
    requires |r.files| >= 1 && |clock| >= |texts| && r.count <= CHECK_TIME_ROLL + 1
    requires forall i :: 0 <= i < |texts| ==> Period(clock[i].0) != r.startOfPeriod && clock[i].1 > r.lastRoll
    ensures |AppendAll(r, texts, clock).files| == |r.files| ==> r.count + |texts| <= CHECK_TIME_ROLL + 1
    decreases |texts|
  {
    if texts != [] {
      var q := AppendFile(r, texts[0], clock[0].0, clock[0].1);
      if |q.files| == |r.files| {
        KeepsFile(r, texts[0], clock[0].0, clock[0].1);
        PeriodRolls(q, texts[1..], clock[1..]);
      } else {
        MoreFiles(r, texts[0], clock[0].0, clock[0].1);
      }
    }
  }

  lemma MoreFiles(r: Roller, text: string, checked: int, rolled: int)
    requires |r.files| >= 1
    ensures |AppendFile(r, text, checked, rolled).files| >= |r.files|
  {
  }

  /** An append that opens no file, although the period is over and the clock past the last roll, only counts. */
  lemma KeepsFile(r: Roller, text: string, checked: int, rolled: int)
    requires |r.files| >= 1 && Period(checked) != r.startOfPeriod && rolled > r.lastRoll
    requires var q := AppendFile(r, text, checked, rolled); |q.files| == |r.files|
    ensures var q := AppendFile(r, text, checked, rolled);
            q.count == r.count + 1 <= CHECK_TIME_ROLL + 1 && q.startOfPeriod == r.startOfPeriod
              && q.lastRoll == r.lastRoll
  {
    hide Period;
  }

  lemma TotalLength(text: string, texts: seq<string>)
    requires texts != []
    ensures |Flatten(texts)| == |texts[0]| + |Flatten(texts[1..])|
    ensures (text + texts[0]) + Flatten(texts[1..]) == text + Flatten(texts)
  {
    ConcatAssoc(text, texts[0], Flatten(texts[1..]));
  }

  /** No needless roll: while all that is appended fits the current file and every check of the clock falls on
      the day of the last roll, no file is opened, however many appends there are. */
  lemma {:induction false} StaysInFile(r: Roller, texts: seq<string>, clock: seq<(int, int)>)
    requires RollerOk(r) && |clock| >= |texts| && |Current(r).text| + |Flatten(texts)| <= r.rollSize
    requires forall i :: 0 <= i < |texts| ==>
               TruncDiv(clock[i].0, 24 * 60 * 60) == TruncDiv(r.lastRoll, 24 * 60 * 60)
    ensures var q := AppendAll(r, texts, clock); var n := |r.files| - 1;
            |q.files| == |r.files| && q.files[..n] == r.files[..n] && q.lastRoll == r.lastRoll
            && q.files[n] == File(Current(r).since, Current(r).text + Flatten(texts))
    decreases |texts|
  {
    hide AppendFile, TruncDiv, RollerOk, Flatten;
    RollerHasFile(r);
    if texts == [] {
      FlattenNone<char>();
      assert Current(r).text + "" == Current(r).text;
    } else {
      TotalLength(Current(r).text, texts);
      RollsIff(r, texts[0], clock[0].0, clock[0].1);
      AppendFileWrites(r, texts[0], clock[0].0, clock[0].1);
      StaysInFile(AppendFile(r, texts[0], clock[0].0, clock[0].1), texts[1..], clock[1..]);
    }
  }

  /** The worker's loop over the buffers is such a run. */
  lemma {:induction false} WriteFromAppends(l: Logger, k: nat, clock: seq<(int, int)>)
    requires |l.roller.files| >= 1 && |clock| >= |l.toWrite| && k <= |l.toWrite|
    ensures WriteFrom(l, k, clock).roller == AppendAll(l.roller, l.toWrite[k..], clock[k..])
    decreases |l.toWrite| - k
  {
    hide AppendFile;
    if k < |l.toWrite| {
      var r := AppendFile(l.roller, l.toWrite[k], clock[k].0, clock[k].1);
      MoreFiles(l.roller, l.toWrite[k], clock[k].0, clock[k].1);
      WriteFromAppends(l.(roller := r), k + 1, clock);
      assert l.toWrite[k..][1..] == l.toWrite[k + 1..] && clock[k..][1..] == clock[k + 1..];
    }
  }

  // ---------- conservation ----------

  /** The bytes of a logger that no file has, the first `done` of `buffersToWrite_` being written. */
  function Queued(l: Logger, done: nat): string {
    Flatten(if done <= |l.toWrite| then l.toWrite[done..] else []) + (Flatten(l.buffers) + l.current)
  }

  /** How many of a logger's `buffersToWrite_` are written. */
  function Done(s: System, id: nat): nat
    requires IdsOk(s) && id < |s.loggers|
  {
    if s.batch != [] && s.batch[0] == id then
      if s.pc.Writing? then s.pc.k else |s.loggers[id].toWrite|
    else 0
  }

  /** Everything of a logger: its files, then what waits in its buffers, oldest first. */
  function Account(s: System, id: nat): string
    requires IdsOk(s) && id < |s.loggers|
  {
    Texts(s.loggers[id].roller.files) + Queued(s.loggers[id], Done(s, id))
  }

  /** A line as long as a buffer is dropped. */
  function Kept(line: string): string {
    if |line| < BUFFER_SIZE then line else ""
  }

  lemma AppendQueues(l: Logger, line: string, done: nat)
    requires ProducerOk(l)
    ensures Queued(AppendLine(l, line), done) == Queued(l, done) + Kept(line)
  {
    hide Flatten;
    var written := Flatten(if done <= |l.toWrite| then l.toWrite[done..] else []);
    FlattenAppend(l.buffers, l.current);
    if |l.current| + |line| < BUFFER_SIZE {
      ConcatAssoc(Flatten(l.buffers), l.current, line);
      ConcatAssoc(written, Flatten(l.buffers) + l.current, line);
    } else {
      assert "" + line == line;
      ConcatAssoc(written, Flatten(l.buffers) + l.current, Kept(line));
    }
  }

  lemma SwapQueues(l: Logger)
    requires ProducerOk(l) && Idle(l)
    ensures Queued(Swap(l), 0) == Queued(l, 0)
  {
    hide Flatten;
    var q := Swap(l);
    FlattenAppend(l.buffers, l.current);
    FlattenNone<char>();
    assert q.toWrite[0..] == q.toWrite && l.toWrite[0..] == [] && q.buffers == [] && q.current == "";
    assert q.toWrite == if |l.current| > 0 then l.buffers + [l.current] else l.buffers;
    assert Queued(q, 0) == Flatten(q.toWrite);
    assert Queued(l, 0) == Flatten(l.buffers) + l.current;
  }

  lemma FlattenNone<T>()
    ensures Flatten<T>([]) == []
  {
  }

  lemma WriteMoves(l: Logger, k: nat, checked: int, rolled: int)
    requires k < |l.toWrite| && RollerOk(l.roller)
    ensures var w := l.(roller := AppendFile(l.roller, l.toWrite[k], checked, rolled));
            Texts(w.roller.files) + Queued(w, k + 1) == Texts(l.roller.files) + Queued(l, k)
  {
    hide AppendFile;
    AppendFileWrites(l.roller, l.toWrite[k], checked, rolled);
    assert l.toWrite[k..][1..] == l.toWrite[k + 1..];
    ConcatAssoc(l.toWrite[k], Flatten(l.toWrite[k + 1..]), Flatten(l.buffers) + l.current);
    ConcatAssoc(Texts(l.roller.files), l.toWrite[k], Queued(l, k + 1));
  }

  /** No step loses, repeats or reorders a byte of any logger: an append adds its line at the end, any other
      step only moves bytes from the buffers to the files. */
  lemma NextConserves(s: System, step: Step, id: nat)
    requires Inv(s) && id < |s.loggers|
    ensures Next(s, step).Running? && Inv(Next(s, step).s) && |Next(s, step).s.loggers| == |s.loggers|
    ensures Account(Next(s, step).s, id)
            == Account(s, id) + (if step.Append? && step.id == id then Kept(step.line) else "")
  {
    hide Inv, Queued, AppendFile, Texts, AppendLine, Swap, RollerOk, ProducerOk;
    InvIds(s);
    NextKeepsInv(s, step);
    assert Account(s, id) + "" == Account(s, id);
    match step
    case Append(i, line) =>
      if i == id {
        InvOf(s, id);
        AppendLineFrame(s.loggers[id], line);
        AppendQueues(s.loggers[id], line, Done(s, id));
        ConcatAssoc(Texts(s.loggers[id].roller.files), Queued(s.loggers[id], Done(s, id)), Kept(line));
      }
    case Collect => CollectConserves(s, id);
    case Write(_, _) => if s.batch != [] { WorkerConserves(s, step, id); }
    case Recycle1 => if s.batch != [] { WorkerConserves(s, step, id); }
    case Recycle2 => if s.batch != [] { WorkerConserves(s, step, id); }
    case Clear => if s.batch != [] { WorkerConserves(s, step, id); }
  }

  lemma InvOf(s: System, id: nat)
    requires Inv(s) && id < |s.loggers|
    ensures ProducerOk(s.loggers[id]) && RollerOk(s.loggers[id].roller)
    ensures id !in s.batch ==> Idle(s.loggers[id])
    ensures s.batch != [] ==> s.batch[0] !in s.batch[1..] && PcOk(s.pc, s.loggers[s.batch[0]])
  {
  }

  lemma CollectConserves(s: System, id: nat)
    requires Inv(s) && id < |s.loggers|
    ensures Next(s, Collect).Running? && IdsOk(Next(s, Collect).s) && |Next(s, Collect).s.loggers| == |s.loggers|
    ensures Account(Next(s, Collect).s, id) == Account(s, id)
  {
    hide Swap, SwapAll, RollerOk, Queued, Texts;
    CollectKeepsInv(s);
    if s.batch == [] {
      SwapAllOk(s.loggers, s.registered);
      SwapOk(s.loggers[id]);
      SwapQueues(s.loggers[id]);
    }
  }

  lemma NothingLeft(written: seq<string>)
    ensures written[|written|..] == [] && written[0..] == written
  {
  }

  lemma WorkerConserves(s: System, step: Step, id: nat)
    requires Inv(s) && s.batch != [] && id < |s.loggers|
    ensures WorkerNext(s, step).Running? && IdsOk(WorkerNext(s, step).s)
            && |WorkerNext(s, step).s.loggers| == |s.loggers|
    ensures Account(WorkerNext(s, step).s, id) == Account(s, id)
  {
    hide Inv, RollerOk, ProducerOk, Idle, AppendFile, Texts, Flatten, Recyclable;
    WorkerKeepsInv(s, step);
    InvOf(s, id);
    InvIds(s);
    InvIds(WorkerNext(s, step).s);
    var l := s.loggers[id];
    if s.batch[0] == id && s.pc.Writing? && step.Write? {
      if s.pc.k < |l.toWrite| {
        WriteMoves(l, s.pc.k, step.checked, step.rolled);
      }
    } else if s.batch[0] == id {
      NothingLeft(l.toWrite);
      NothingLeft(WorkerNext(s, step).s.loggers[id].toWrite);
    }
  }

  lemma InvIds(s: System)
    requires Inv(s)
    ensures IdsOk(s)
  {
  }

  // ---------- whole runs ----------

  function Run(s: System, steps: seq<Step>): World
    requires Inv(s)
    decreases |steps|
  {
    if steps == [] then Running(s)
    else NextKeepsInv(s, steps[0]); Run(Next(s, steps[0]).s, steps[1..])
  }

  /** The lines appended to a logger, in lock order. */
  function Appended(steps: seq<Step>, id: nat): string {
    if steps == [] then ""
    else (if steps[0].Append? && steps[0].id == id then Kept(steps[0].line) else "") + Appended(steps[1..], id)
  }

  /** Log conservation and order: under every schedule of producers and worker, and for every logger, the
      files followed by the buffers are what was there and then every appended line shorter than a
      buffer; nothing crashes on the way. */
  lemma {:induction false} LogConservation(s: System, steps: seq<Step>, id: nat)
    requires Inv(s) && id < |s.loggers|
    ensures Run(s, steps).Running? && Inv(Run(s, steps).s) && |Run(s, steps).s.loggers| == |s.loggers|
    ensures Account(Run(s, steps).s, id) == Account(s, id) + Appended(steps, id)
    decreases |steps|
  {
    hide Inv, Account, Next;
    InvIds(s);
    if steps == [] {
      assert Account(s, id) + "" == Account(s, id);
    } else {
      NextConserves(s, steps[0], id);
      var t := Next(s, steps[0]).s;
      LogConservation(t, steps[1..], id);
      var first := if steps[0].Append? && steps[0].id == id then Kept(steps[0].line) else "";
      ConcatAssoc(Account(s, id), first, Appended(steps[1..], id));
    }
  }

  /** The worker is through with the first logger of its batch, which is now `w`. */
  function BatchAdvanced(s: System, w: Logger): System
    requires s.batch != [] && s.batch[0] < |s.loggers|
  {
    s.(loggers := s.loggers[s.batch[0] := w], batch := s.batch[1..], pc := Writing(0))
  }

  /** Left alone with a batch, the worker's own steps amount to `appendBuffers_unlocked` on its first logger. */
  lemma {:induction false} WorkerAlone(s: System, k: nat, clock: seq<(int, int)>)
    requires Inv(s) && s.batch != [] && s.pc == Writing(k)
    requires |clock| >= |s.loggers[s.batch[0]].toWrite|
    ensures |s.loggers[s.batch[0]].roller.files| >= 1 && Recyclable(s.loggers[s.batch[0]])
    ensures var l := s.loggers[s.batch[0]];
            var w := ReuseSecond(ReuseFirst(WriteFrom(l, k, clock))).(toWrite := []);
            Run(s, WorkerSteps(l, k, clock)) == Running(BatchAdvanced(s, w))
    decreases |s.loggers[s.batch[0]].toWrite| - k
  {
    hide AppendFile, RollerOk, ProducerOk, Idle, NoDuplicates;
    var l := s.loggers[s.batch[0]];
    if k >= |l.toWrite| {
      LastSteps(s);
    } else {
      var step := Write(clock[k].0, clock[k].1);
      NextKeepsInv(s, step);
      var t := Next(s, step).s;
      WorkerAlone(t, k + 1, clock);
      var rest := WorkerSteps(l, k + 1, clock);
      assert WorkerSteps(t.loggers[t.batch[0]], k + 1, clock) == rest by {
        SameSteps(l, t.loggers[t.batch[0]], k + 1, clock);
      }
      assert ([step] + rest)[1..] == rest;
      assert Run(s, [step] + rest) == Run(t, rest);
    }
  }

  lemma {:induction false} SameSteps(a: Logger, b: Logger, k: nat, clock: seq<(int, int)>)
    requires a.toWrite == b.toWrite && |clock| >= |a.toWrite|
    ensures WorkerSteps(a, k, clock) == WorkerSteps(b, k, clock)
    decreases |a.toWrite| - k
  {
    if k < |a.toWrite| { SameSteps(a, b, k + 1, clock); }
  }

  lemma RunNothing(s: System)
    requires Inv(s)
    ensures Run(s, []) == Running(s)
  {
  }

  lemma RunFirst(s: System, step: Step, rest: seq<Step>)
    requires Inv(s)
    ensures IdsOk(s) && Next(s, step).Running? && Inv(Next(s, step).s)
    ensures Run(s, [step] + rest) == Run(Next(s, step).s, rest)
  {
    InvIds(s);
    NextKeepsInv(s, step);
    assert ([step] + rest)[1..] == rest;
  }

  /** The worker goes on in its batch with its first logger as `l`. */
  function Onward(s: System, l: Logger, pc: Pc): System
    requires s.batch != [] && s.batch[0] < |s.loggers|
  {
    s.(loggers := s.loggers[s.batch[0] := l], pc := pc)
  }

  lemma AllWritten(s: System)
    requires IdsOk(s) && s.batch != [] && s.pc.Writing? && s.pc.k >= |s.loggers[s.batch[0]].toWrite|
    ensures Next(s, Write(0, 0)) == Running(Onward(s, s.loggers[s.batch[0]], Reusing1))
  {
    assert s.loggers[s.batch[0] := s.loggers[s.batch[0]]] == s.loggers;
  }

  lemma FirstRecycled(s: System)
    requires IdsOk(s) && s.batch != [] && s.pc == Reusing1
             && ReuseSafe(s.loggers[s.batch[0]], s.loggers[s.batch[0]].buffer1)
    ensures Next(s, Recycle1) == Running(Onward(s, ReuseFirst(s.loggers[s.batch[0]]), Reusing2))
  {
  }

  lemma SecondRecycled(s: System)
    requires IdsOk(s) && s.batch != [] && s.pc == Reusing2
             && ReuseSafe(s.loggers[s.batch[0]], s.loggers[s.batch[0]].buffer2)
    ensures Next(s, Recycle2) == Running(Onward(s, ReuseSecond(s.loggers[s.batch[0]]), Clearing))
  {
  }

  lemma BatchCleared(s: System)
    requires IdsOk(s) && s.batch != [] && s.pc == Clearing
    ensures Next(s, Clear) == Running(BatchAdvanced(s, s.loggers[s.batch[0]].(toWrite := [])))
  {
  }

  lemma LastSteps(s: System)
    requires Inv(s) && s.batch != [] && s.pc.Writing? && s.pc.k >= |s.loggers[s.batch[0]].toWrite|
    requires Recyclable(s.loggers[s.batch[0]])
    ensures var w := ReuseSecond(ReuseFirst(s.loggers[s.batch[0]])).(toWrite := []);
            Run(s, [Write(0, 0), Recycle1, Recycle2, Clear]) == Running(BatchAdvanced(s, w))
  {
    hide Inv, IdsOk, Next, Run, ReuseFirst, ReuseSecond, Onward;
    BatchIds(s);
    var l, id := s.loggers[s.batch[0]], s.batch[0];
    RunFirst(s, Write(0, 0), [Recycle1, Recycle2, Clear]);
    AllWritten(s);
    OnwardFrom(s, l, Reusing1);
    var s1 := Onward(s, l, Reusing1);
    RunFirst(s1, Recycle1, [Recycle2, Clear]);
    FirstRecycled(s1);
    OnwardFrom(s1, ReuseFirst(l), Reusing2);
    var s2 := Onward(s1, ReuseFirst(l), Reusing2);
    RunFirst(s2, Recycle2, [Clear]);
    SecondSafe(l);
    SecondRecycled(s2);
    OnwardFrom(s2, ReuseSecond(ReuseFirst(l)), Clearing);
    var s3 := Onward(s2, ReuseSecond(ReuseFirst(l)), Clearing);
    RunFirst(s3, Clear, []);
    BatchCleared(s3);
    RunNothing(BatchAdvanced(s3, ReuseSecond(ReuseFirst(l)).(toWrite := [])));
    assert [Write(0, 0)] + [Recycle1, Recycle2, Clear] == [Write(0, 0), Recycle1, Recycle2, Clear];
    assert [Recycle1] + [Recycle2, Clear] == [Recycle1, Recycle2, Clear] && [Recycle2] + [Clear] == [Recycle2, Clear];
    assert [Clear] + [] == [Clear];
  }

  lemma SecondSafe(l: Logger)
    requires Recyclable(l)
    ensures ReuseSafe(l, l.buffer1) && ReuseSafe(ReuseFirst(l), ReuseFirst(l).buffer2)
  {
  }

  /** Two updates of the same logger leave the last. */
  lemma OnwardFrom(s: System, l: Logger, pc: Pc)
    requires s.batch != [] && s.batch[0] < |s.loggers|
    ensures var t := Onward(s, l, pc);
            && t.batch == s.batch && t.pc == pc && |t.loggers| == |s.loggers| && t.loggers[s.batch[0]] == l
            && forall m :: BatchAdvanced(t, m) == BatchAdvanced(s, m)
  {
    var t := Onward(s, l, pc);
    forall m
      ensures BatchAdvanced(t, m) == BatchAdvanced(s, m)
    {
      assert t.loggers[s.batch[0] := m] == s.loggers[s.batch[0] := m];
    }
  }

  lemma BatchIds(s: System)
    requires Inv(s) && s.batch != []
    ensures IdsOk(s) && s.batch[0] < |s.loggers|
  {
  }

  // ---------- from the start ----------

  /** A logger as constructed, its first file opened at `now`: `rollFile` opens one only if `now > 0`. */
  function NewLogger(rollSize: nat, now: int): Logger {
    Logger("", Some(""), [], [], Some(""), Some(""), false,
           Roller([File(now, "")], rollSize, 0, Period(now), now))
  }

  ghost predicate AsConstructed(l: Logger) {
    exists rollSize: nat, now :: now > 0 && l == NewLogger(rollSize, now)
  }

  ghost predicate Started(s: System) {
    && s.registered == [] && s.batch == []
    && (forall i :: 0 <= i < |s.loggers| ==> AsConstructed(s.loggers[i]))
  }

  function Occurrences(ids: seq<nat>, id: nat): nat {
    if ids == [] then 0 else (if ids[0] == id then 1 else 0) + Occurrences(ids[1..], id)
  }

  lemma {:induction false} OccursOnce(ids: seq<nat>, id: nat)
    requires NoDuplicates(ids)
    ensures Occurrences(ids, id) == if id in ids then 1 else 0
    decreases |ids|
  {
    if ids != [] {
      assert ids[0] !in ids[1..];
      OccursOnce(ids[1..], id);
    }
  }

  /** In every reachable state of a fresh system, for every logger: what the files hold is a prefix of what
      was appended; the logger is registered once if it is not empty and not at all otherwise; it occurs at
      most once in the worker's batch, and when the next batch is collected both its spares are there. */
  lemma LoggerOverRuns(s: System, steps: seq<Step>, id: nat)
    requires Started(s) && id < |s.loggers|
    ensures Inv(s) && Run(s, steps).Running?
    ensures var t := Run(s, steps).s;
            && id < |t.loggers|
            && Texts(t.loggers[id].roller.files) <= Appended(steps, id)
            && Occurrences(t.registered, id) == (if t.loggers[id].notEmpty then 1 else 0)
            && Occurrences(t.batch, id) <= 1
            && (t.batch == [] ==> t.loggers[id].buffer1 == t.loggers[id].buffer2 == Some(""))
  {
    hide Queued, Texts, Run, Started, ProducerOk, Recyclable, RollerOk;
    StartedOk(s);
    StartedEmpty(s, id);
    LogConservation(s, steps, id);
    var t := Run(s, steps).s;
    assert "" + Appended(steps, id) == Appended(steps, id);
    OccursOnce(t.registered, id);
    OccursOnce(t.batch, id);
  }

  /** When the worker recycles, nothing of the buffers it took is missing from the files: every line appended
      to its logger is there, or in a buffer filled since. */
  lemma RecycledIsWritten(s: System, steps: seq<Step>, id: nat)
    requires Started(s) && id < |s.loggers|
    ensures Inv(s) && Run(s, steps).Running? && id < |Run(s, steps).s.loggers|
    ensures var t := Run(s, steps).s; var l := t.loggers[id];
            t.batch != [] && t.batch[0] == id && !t.pc.Writing? ==>
              Texts(l.roller.files) + (Flatten(l.buffers) + l.current) == Appended(steps, id)
  {
    hide Texts, Run, Started, Inv, Flatten;
    StartedOk(s);
    StartedEmpty(s, id);
    LogConservation(s, steps, id);
    FlattenNone<char>();
    var t := Run(s, steps).s;
    var l := t.loggers[id];
    NothingLeft(l.toWrite);
    assert "" + Appended(steps, id) == Appended(steps, id);
    assert [] + (Flatten(l.buffers) + l.current) == Flatten(l.buffers) + l.current;
  }

  lemma StartedEmpty(s: System, id: nat)
    requires Started(s) && id < |s.loggers|
    ensures IdsOk(s) && Account(s, id) == ""
  {
    assert AsConstructed(s.loggers[id]);
    var rollSize: nat, now :| s.loggers[id] == NewLogger(rollSize, now);
    assert Texts([File(now, "")]) == "" by { assert [File(now, "")][..0] == []; }
    assert Queued(s.loggers[id], 0) == "" by { FlattenNone<char>(); }
  }

  lemma StartedOk(s: System)
    requires Started(s)
    ensures Inv(s)
  {
  }

  // ---------- a full round of the worker ----------

  /** Nothing is in the buffers that producers fill. */
  ghost predicate FrontEmpty(s: System) {
    forall i :: 0 <= i < |s.loggers| ==> s.loggers[i].current == "" && s.loggers[i].buffers == []
  }

  predicate ByWorker(steps: seq<Step>) {
    forall i :: 0 <= i < |steps| ==> !steps[i].Append?
  }

  lemma {:induction false} WorkerAppendsNothing(steps: seq<Step>, id: nat)
    requires ByWorker(steps)
    ensures Appended(steps, id) == ""
    decreases |steps|
  {
    if steps != [] { WorkerAppendsNothing(steps[1..], id); }
  }

  lemma {:induction false} WorkerStepsAreHis(l: Logger, k: nat, clock: seq<(int, int)>)
    requires |clock| >= |l.toWrite|
    ensures ByWorker(WorkerSteps(l, k, clock))
    decreases |l.toWrite| - k
  {
    if k < |l.toWrite| { WorkerStepsAreHis(l, k + 1, clock); }
  }

  lemma {:induction false} RunConcat(s: System, a: seq<Step>, b: seq<Step>)
    requires Inv(s)
    ensures Run(s, a).Running? && Inv(Run(s, a).s) && Run(s, a + b) == Run(Run(s, a).s, b)
    decreases |a|
  {
    hide Inv, Next;
    if a == [] {
      RunNothing(s);
      assert a + b == b;
    } else {
      RunFirst(s, a[0], a[1..]);
      RunFirst(s, a[0], a[1..] + b);
      assert a == [a[0]] + a[1..] && a + b == [a[0]] + (a[1..] + b);
      RunConcat(Next(s, a[0]).s, a[1..], b);
    }
  }

  /** The collection takes all that is in front. */
  lemma CollectTakesAll(s: System)
    requires Inv(s) && s.batch == []
    ensures IdsOk(s) && Next(s, Collect).Running?
    ensures var t := Next(s, Collect).s;
            FrontEmpty(t) && t.registered == [] && t.batch == s.registered && t.pc == Writing(0)
  {
    hide SwapAll, RollerOk;
    SwapAllOk(s.loggers, s.registered);
    var t := Next(s, Collect).s;
    forall i | 0 <= i < |t.loggers|
      ensures t.loggers[i].current == "" && t.loggers[i].buffers == []
    {
      if i in s.registered {
        var k :| 0 <= k < |s.registered| && s.registered[k] == i;
        assert t.loggers[s.registered[k]] == Swap(s.loggers[s.registered[k]]);
      }
    }
  }

  lemma BatchShrinks(s: System, clock: seq<(int, int)>)
    requires Inv(s) && s.batch != [] && s.pc == Writing(0) && FrontEmpty(s) && s.registered == []
    requires |clock| >= |s.loggers[s.batch[0]].toWrite|
    ensures var steps := WorkerSteps(s.loggers[s.batch[0]], 0, clock);
            Run(s, steps).Running? && (
              var t := Run(s, steps).s;
              Inv(t) && t.batch == s.batch[1..] && t.pc == Writing(0) && FrontEmpty(t) && t.registered == [])
  {
    hide Inv, Run, AppendFile;
    InvIds(s);
    WorkerAlone(s, 0, clock);
    RunConcat(s, WorkerSteps(s.loggers[s.batch[0]], 0, clock), []);
  }

  /** The worker's steps, left alone, take it through its batch; `checked` and `rolled` are what the clock reads. */
  lemma {:induction false} BatchEnds(s: System, checked: int, rolled: int) returns (steps: seq<Step>)
    requires Inv(s) && s.pc == Writing(0) && FrontEmpty(s) && s.registered == []
    ensures ByWorker(steps) && Run(s, steps).Running?
    ensures var t := Run(s, steps).s; t.batch == [] && FrontEmpty(t) && t.registered == []
    decreases |s.batch|
  {
    hide Inv, Run, FrontEmpty, WorkerSteps;
    if s.batch == [] {
      steps := [];
      RunNothing(s);
    } else {
      InvIds(s);
      var l := s.loggers[s.batch[0]];
      var clock := seq(|l.toWrite|, _ => (checked, rolled));
      var first := WorkerSteps(l, 0, clock);
      BatchShrinks(s, clock);
      WorkerStepsAreHis(l, 0, clock);
      var rest := BatchEnds(Run(s, first).s, checked, rolled);
      RunConcat(s, first, rest);
      steps := first + rest;
    }
  }

  lemma AllWrittenOut(s: System, id: nat)
    requires Inv(s) && s.batch == [] && FrontEmpty(s) && id < |s.loggers|
    ensures IdsOk(s) && Account(s, id) == Texts(s.loggers[id].roller.files)
  {
    hide Texts, RollerOk;
    assert Idle(s.loggers[id]);
    var text := Texts(s.loggers[id].roller.files);
    assert text + "" == text;
  }

  /** Delivery: from any state in which the worker waits, its next round, left alone, brings every line that
      was appended before to every logger into the files. */
  lemma RoundWritesAll(s: System, checked: int, rolled: int) returns (steps: seq<Step>)
    requires Inv(s) && s.batch == []
    ensures ByWorker(steps) && Run(s, steps).Running? && IdsOk(s)
    ensures var t := Run(s, steps).s;
            t.batch == [] && t.registered == [] && |t.loggers| == |s.loggers|
            && forall id :: 0 <= id < |s.loggers| ==> Texts(t.loggers[id].roller.files) == Account(s, id)
  {
    hide Inv, Run, FrontEmpty, Account, Texts;
    InvIds(s);
    CollectTakesAll(s);
    NextKeepsInv(s, Collect);
    var rest := BatchEnds(Next(s, Collect).s, checked, rolled);
    steps := [Collect] + rest;
    RunFirst(s, Collect, rest);
    RunConcat(s, steps, []);
    var t := Run(s, steps).s;
    RoundKeepsSize(s, steps);
    forall id | 0 <= id < |s.loggers|
      ensures Texts(t.loggers[id].roller.files) == Account(s, id)
    {
      LogConservation(s, steps, id);
      WorkerAppendsNothing(steps, id);
      AllWrittenOut(t, id);
      assert Account(s, id) + "" == Account(s, id);
    }
  }

  lemma {:induction false} RoundKeepsSize(s: System, steps: seq<Step>)
    requires Inv(s)
    ensures Run(s, steps).Running? && |Run(s, steps).s.loggers| == |s.loggers|
    decreases |steps|
  {
    hide Inv, Next;
    if steps == [] {
      RunNothing(s);
    } else {
      RunFirst(s, steps[0], steps[1..]);
      assert steps == [steps[0]] + steps[1..];
      NextKeepsSize(s, steps[0]);
      RoundKeepsSize(Next(s, steps[0]).s, steps[1..]);
    }
  }

  lemma NextKeepsSize(s: System, step: Step)
    requires Inv(s)
    ensures IdsOk(s) && Next(s, step).Running? && |Next(s, step).s.loggers| == |s.loggers|
  {
    hide AppendFile, AppendLine, RollerOk, ProducerOk;
    NextKeepsInv(s, step);
    SwapAllOk(s.loggers, if s.batch == [] then s.registered else []);
  }
}
