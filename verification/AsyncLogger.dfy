/** `AsyncLogger` over buffer objects (log/AsyncLogger.cpp). */
module AsyncLoggers {
  import opened Arith
  import opened LogSpec

  /** `AsyncLogger::Buffer`; `text` is what lies between `data_` and `cur_`. */
  class LogBuffer {
    var text: string

    constructor ()
      ensures text == ""
    {
      text := "";
    }

    function Avail(): int
      reads this
    {
      BUFFER_SIZE - |text|
    }

    method Append(line: string)
      modifies this
      ensures text == Fill(old(text), line)
    {
      if Avail() > |line| {
        text := text + line;
      }
    }

    method Reset()
      modifies this
      ensures text == ""
    {
      text := "";
    }
  }

  function Contents(buffers: seq<LogBuffer>): seq<string>
    reads buffers
  {
    if buffers == [] then [] else Contents(buffers[..|buffers| - 1]) + [buffers[|buffers| - 1].text]
  }

  lemma {:induction false} ContentsAt(buffers: seq<LogBuffer>, i: nat)
    requires i < |buffers|
    ensures |Contents(buffers)| == |buffers| && Contents(buffers)[i] == buffers[i].text
    decreases |buffers|
  {
    if |buffers| > 1 {
      ContentsAt(buffers[..|buffers| - 1], if i < |buffers| - 1 then i else 0);
    }
  }

  lemma {:induction false} ContentsLength(buffers: seq<LogBuffer>)
    ensures |Contents(buffers)| == |buffers|
    decreases |buffers|
  {
    if buffers != [] { ContentsLength(buffers[..|buffers| - 1]); }
  }

  lemma ContentsAppend(buffers: seq<LogBuffer>, b: LogBuffer)
    ensures Contents(buffers + [b]) == Contents(buffers) + [b.text]
  {
    assert (buffers + [b])[..|buffers|] == buffers;
  }

  twostate lemma {:induction false} ContentsUntouched(buffers: seq<LogBuffer>)
    requires forall b :: b in buffers ==> b.text == old(b.text)
    ensures Contents(buffers) == old(Contents(buffers))
    decreases |buffers|
  {
    if buffers != [] { ContentsUntouched(buffers[..|buffers| - 1]); }
  }

  function Content(buffer: LogBuffer?): Option<string>
    reads buffer
  {
    if buffer == null then None else Some(buffer.text)
  }

  ghost function One(buffer: LogBuffer?): multiset<LogBuffer> {
    if buffer == null then multiset{} else multiset{buffer}
  }

  /** Every place that holds a buffer, counted. */
  ghost function Bag(current: LogBuffer, next: LogBuffer?, buffers: seq<LogBuffer>, toWrite: seq<LogBuffer>,
                     first: LogBuffer?, second: LogBuffer?): multiset<LogBuffer>
  {
    multiset{current} + One(next) + multiset(buffers) + multiset(toWrite) + One(first) + One(second)
  }

  lemma BagQueues(x: LogBuffer, next: LogBuffer, buffers: seq<LogBuffer>, toWrite: seq<LogBuffer>,
                  first: LogBuffer?, second: LogBuffer?)
    ensures Bag(next, null, buffers + [x], toWrite, first, second) == Bag(x, next, buffers, toWrite, first, second)
  {
    hide One;
    OneOf(next);
  }

  lemma BagGrows(x: LogBuffer, fresh': LogBuffer, buffers: seq<LogBuffer>, toWrite: seq<LogBuffer>,
                 first: LogBuffer?, second: LogBuffer?)
    ensures Bag(fresh', null, buffers + [x], toWrite, first, second)
         == Bag(x, null, buffers, toWrite, first, second) + multiset{fresh'}
  {
    hide One;
  }

  lemma BagUsesSpare(x: LogBuffer, next: LogBuffer?, buffers: seq<LogBuffer>, toWrite: seq<LogBuffer>,
                     first: LogBuffer, second: LogBuffer?)
    ensures Bag(first, next, buffers + [x], toWrite, null, second) == Bag(x, next, buffers, toWrite, first, second)
  {
    hide One;
    OneOf(first);
  }

  lemma BagSwaps(current: LogBuffer, next: LogBuffer?, buffers: seq<LogBuffer>, toWrite: seq<LogBuffer>,
                 first: LogBuffer?, second: LogBuffer?)
    ensures Bag(current, next, toWrite, buffers, first, second) == Bag(current, next, buffers, toWrite, first, second)
    ensures Bag(current, second, toWrite, buffers, first, next) == Bag(current, next, buffers, toWrite, first, second)
  {
    hide One;
  }

  lemma BagRecycles(current: LogBuffer, next: LogBuffer?, buffers: seq<LogBuffer>, toWrite: seq<LogBuffer>,
                    other: LogBuffer?)
    requires |toWrite| > 0
    ensures var n := |toWrite| - 1; var x := toWrite[n];
            && Bag(current, next, buffers, toWrite[..n], x, other) == Bag(current, next, buffers, toWrite, null, other)
            && Bag(current, next, buffers, toWrite[..n], other, x) == Bag(current, next, buffers, toWrite, other, null)
  {
    hide One;
    var n := |toWrite| - 1;
    assert toWrite == toWrite[..n] + [toWrite[n]];
    assert multiset(toWrite) == multiset(toWrite[..n]) + multiset{toWrite[n]};
    OneOf(toWrite[n]);
  }

  lemma BagClears(current: LogBuffer, next: LogBuffer?, buffers: seq<LogBuffer>, toWrite: seq<LogBuffer>,
                  first: LogBuffer?, second: LogBuffer?)
    ensures Bag(current, next, buffers, [], first, second) <= Bag(current, next, buffers, toWrite, first, second)
  {
    hide One;
  }

  lemma BagOfFour(a: LogBuffer, b: LogBuffer, c: LogBuffer, d: LogBuffer)
    requires a != b && a != c && a != d && b != c && b != d && c != d
    ensures forall x :: x in Bag(a, b, [], [], c, d) ==> x in {a, b, c, d} && Bag(a, b, [], [], c, d)[x] == 1
  {
  }

  lemma OneOf(x: LogBuffer)
    ensures One(x) == multiset{x} && One(null) == multiset{}
  {
  }

  ghost predicate Single(m: multiset<LogBuffer>) {
    forall b :: b in m ==> m[b] == 1
  }

  lemma FewerSingle(m: multiset<LogBuffer>, n: multiset<LogBuffer>)
    requires Single(n) && m <= n
    ensures Single(m)
  {
  }

  class AsyncLogger {
    var currentBuffer: LogBuffer
    var nextBuffer: LogBuffer?
    var buffers: seq<LogBuffer>
    var buffersToWrite: seq<LogBuffer>
    var buffer1: LogBuffer?
    var buffer2: LogBuffer?
    var notEmpty: bool
    var roller: Roller

    ghost function Held(): multiset<LogBuffer>
      reads this
    {
      Bag(currentBuffer, nextBuffer, buffers, buffersToWrite, buffer1, buffer2)
    }

    /** All held buffers are pairwise distinct. */
    ghost predicate Valid()
      reads this
    {
      Single(Held())
    }

    lemma Apart()
      requires Valid()
      ensures currentBuffer !in buffers && currentBuffer !in buffersToWrite
      ensures currentBuffer != nextBuffer && currentBuffer != buffer1 && currentBuffer != buffer2
      ensures nextBuffer != null ==> nextBuffer !in buffers && nextBuffer !in buffersToWrite
      ensures nextBuffer != null ==> nextBuffer != buffer1 && nextBuffer != buffer2
      ensures buffer1 != null ==> buffer1 !in buffers && buffer1 !in buffersToWrite && buffer1 != buffer2
      ensures buffer2 != null ==> buffer2 !in buffers && buffer2 !in buffersToWrite
    {
      assert currentBuffer in Held();
      assert nextBuffer != null ==> (nextBuffer as LogBuffer) in Held();
      assert buffer1 != null ==> (buffer1 as LogBuffer) in Held();
      assert buffer2 != null ==> (buffer2 as LogBuffer) in Held();
    }

    function State(): Logger
      reads this, currentBuffer, nextBuffer, buffers, buffersToWrite, buffer1, buffer2
    {
      Logger(currentBuffer.text, Content(nextBuffer), Contents(buffers), Contents(buffersToWrite),
             Content(buffer1), Content(buffer2), notEmpty, roller)
    }

    ghost function Buffers(): set<LogBuffer>
      reads this
    {
      set b | b in Held()
    }

    lemma HoldsAll()
      ensures currentBuffer in Buffers()
      ensures nextBuffer != null ==> nextBuffer in Buffers()
      ensures buffer1 != null ==> buffer1 in Buffers()
      ensures buffer2 != null ==> buffer2 in Buffers()
      ensures forall b :: b in buffers || b in buffersToWrite ==> b in Buffers()
    {
      assert currentBuffer in Held();
      assert nextBuffer != null ==> (nextBuffer as LogBuffer) in Held();
      assert buffer1 != null ==> (buffer1 as LogBuffer) in Held();
      assert buffer2 != null ==> (buffer2 as LogBuffer) in Held();
      assert forall b :: b in buffers || b in buffersToWrite ==> b in Held();
    }

    /** What is held is there: a new buffer is none of it. */
    lemma AllThere()
      ensures forall b :: b in Buffers() ==> allocated(b)
    {
    }

    /** The fields and the buffers held are those of `l`. */
    ghost predicate Shows(l: Logger)
      reads this, Buffers()
    {
      HoldsAll();
      State() == l
    }

    lemma ShownFields(l: Logger)
      requires Shows(l)
      ensures State() == l && notEmpty == l.notEmpty && roller == l.roller && |buffersToWrite| == |l.toWrite|
      ensures (buffer1 == null <==> l.buffer1.None?) && (buffer2 == null <==> l.buffer2.None?)
      ensures forall k :: 0 <= k < |buffersToWrite| ==> buffersToWrite[k].text == l.toWrite[k]
    {
      ContentsLength(buffersToWrite);
      forall k | 0 <= k < |buffersToWrite|
        ensures buffersToWrite[k].text == l.toWrite[k]
      {
        ContentsAt(buffersToWrite, k);
      }
    }

    /** Nothing of a logger changes when neither it nor a buffer it holds does. */
    twostate lemma Untouched()
      requires unchanged(this) && forall b :: b in old(Buffers()) ==> b.text == old(b.text)
      ensures Buffers() == old(Buffers()) && Held() == old(Held()) && Valid() == old(Valid())
      ensures forall l :: Shows(l) == old(Shows(l))
    {
      hide Contents, Held;
      HoldsAll();
      ContentsUntouched(buffers);
      ContentsUntouched(buffersToWrite);
    }

    lemma Showing()
      ensures Shows(State())
    {
    }

    /** The clock must be past the epoch: otherwise `rollFile` opens no file. */
    constructor (rollSize: nat, now: int)
      requires now > 0
      ensures Valid() && State() == NewLogger(rollSize, now)
      ensures forall b :: b in Held() ==> fresh(b)
    {
      hide Bag;
      var a := new LogBuffer();
      var b := new LogBuffer();
      var c := new LogBuffer();
      var d := new LogBuffer();
      BagOfFour(a, b, c, d);
      currentBuffer, nextBuffer, buffer1, buffer2 := a, b, c, d;
      buffers, buffersToWrite, notEmpty := [], [], false;
      roller := Roller([File(now, "")], rollSize, 0, Period(now), now);
    }

    method AppendToBufferLocked(line: string)
      requires Valid()
      modifies this, currentBuffer, nextBuffer
      ensures Valid() && State() == AppendLine(old(State()), line)
      ensures forall b :: b in Held() && b !in old(Held()) ==> fresh(b)
    {
      hide Valid, Held, Contents;
      Apart();
      if currentBuffer.Avail() > |line| {
        currentBuffer.Append(line);
      } else {
        NextBuffer();
        ContentsAppend(old(buffers), old(currentBuffer));
        Apart();
        currentBuffer.Append(line);
      }
      SetNotEmpty();
    }

    method SetNotEmpty()
      modifies this`notEmpty
      ensures notEmpty && Held() == old(Held()) && (old(Valid()) ==> Valid())
    {
      if !notEmpty {
        notEmpty := true;
      }
    }

    /** The full buffer is queued; the next one, or a new one, takes its place. */
    method NextBuffer()
      requires Valid()
      modifies this`buffers, this`currentBuffer, this`nextBuffer
      ensures Valid()
      ensures forall b :: b in Held() && b !in old(Held()) ==> fresh(b)
      ensures buffers == old(buffers) + [old(currentBuffer)] && nextBuffer == null
      ensures if old(nextBuffer) != null then currentBuffer == old(nextBuffer)
              else fresh(currentBuffer) && currentBuffer.text == ""
    {
      hide State;
      if nextBuffer != null {
        UseNext();
      } else {
        UseNew();
      }
    }

    method UseNext()
      requires nextBuffer != null
      modifies this`buffers, this`currentBuffer, this`nextBuffer
      ensures Held() == old(Held())
      ensures buffers == old(buffers) + [old(currentBuffer)] && nextBuffer == null && currentBuffer == old(nextBuffer)
    {
      hide Bag;
      BagQueues(currentBuffer, nextBuffer, buffers, buffersToWrite, buffer1, buffer2);
      buffers := buffers + [currentBuffer];
      currentBuffer := nextBuffer;
      nextBuffer := null;
    }

    method UseNew()
      requires nextBuffer == null
      modifies this`buffers, this`currentBuffer
      ensures fresh(currentBuffer) && currentBuffer.text == "" && Held() == old(Held()) + multiset{currentBuffer}
      ensures buffers == old(buffers) + [old(currentBuffer)]
    {
      hide Bag;
      var b := new LogBuffer();
      BagGrows(currentBuffer, b, buffers, buffersToWrite, buffer1, buffer2);
      buffers := buffers + [currentBuffer];
      currentBuffer := b;
    }

    method SwapBuffersToWriteLocked()
      requires Valid() && SwapSafe(State())
      modifies this
      ensures Valid() && Held() == old(Held()) && Buffers() == old(Buffers())
      ensures State() == Swap(old(State()))
    {
      hide Valid, Held, Contents;
      ghost var l := State();
      if |currentBuffer.text| > 0 {
        UseFirstSpare();
        ContentsAppend(old(buffers), old(currentBuffer));
      }
      SwapRest();
    }

    method UseFirstSpare()
      requires buffer1 != null
      modifies this`buffers, this`currentBuffer, this`buffer1
      ensures Held() == old(Held()) && (old(Valid()) ==> Valid())
      ensures buffers == old(buffers) + [old(currentBuffer)] && currentBuffer == old(buffer1) && buffer1 == null
    {
      hide Bag;
      BagUsesSpare(currentBuffer, nextBuffer, buffers, buffersToWrite, buffer1, buffer2);
      buffers := buffers + [currentBuffer];
      currentBuffer := buffer1;
      buffer1 := null;
    }

    method SwapRest()
      modifies this`nextBuffer, this`buffer2, this`buffers, this`buffersToWrite, this`notEmpty
      ensures Held() == old(Held()) && (old(Valid()) ==> Valid())
      ensures nextBuffer == if old(nextBuffer) == null then old(buffer2) else old(nextBuffer)
      ensures buffer2 == if old(nextBuffer) == null then null else old(buffer2)
      ensures buffersToWrite == old(buffers) && buffers == old(buffersToWrite) && !notEmpty
    {
      hide Bag;
      BagSwaps(currentBuffer, nextBuffer, buffers, buffersToWrite, buffer1, buffer2);
      if nextBuffer == null {
        nextBuffer, buffer2 := buffer2, nextBuffer;
      }
      buffersToWrite, buffers := buffers, buffersToWrite;
      if notEmpty {
        notEmpty := false;
      }
    }

    // ---------- the worker, outside the mutex ----------

    /** `clock[k]` holds the readings of the clock that the k-th `append_unlocked` takes. */
    method AppendBuffersUnlocked(clock: seq<(int, int)>)
      requires Valid() && Recyclable(State()) && |roller.files| >= 1 && |clock| >= |State().toWrite|
      modifies this, buffersToWrite
      ensures Valid() && Held() <= old(Held())
      ensures State() == Drained(old(State()), clock)
    {
      hide Valid, Held, Contents, AppendFile;
      ContentsLength(buffersToWrite);
      ghost var l := State();
      for k := 0 to |buffersToWrite|
        invariant buffersToWrite == old(buffersToWrite) && |roller.files| >= 1
        invariant State() == l.(roller := roller) && Valid() && Held() == old(Held())
        invariant WriteFrom(State(), k, clock) == WriteFrom(l, 0, clock)
      {
        ContentsAt(buffersToWrite, k);
        WriteBuffer(k, clock[k].0, clock[k].1);
      }
      if buffer1 == null {
        RecycleFirst();
      }
      if buffer2 == null {
        RecycleSecond();
      }
      ClearWritten();
    }

    /** `append_unlocked` of one buffer: whatever the clock reads and whether a file is rolled or not, the
        files together gain exactly its text, and the buffers stay as they are. */
    method WriteBuffer(k: nat, checked: int, rolled: int)
      requires k < |buffersToWrite| && |roller.files| >= 1
      modifies this`roller
      ensures roller == AppendFile(old(roller), buffersToWrite[k].text, checked, rolled) && |roller.files| >= 1
      ensures old(RollerOk(roller)) ==>
                RollerOk(roller) && Texts(roller.files) == Texts(old(roller.files)) + buffersToWrite[k].text
      ensures var size := |old(roller.files)[|old(roller.files)| - 1].text| + |buffersToWrite[k].text|;
              var day := 24 * 60 * 60;
              old(RollerOk(roller)) ==> (
                |roller.files| > |old(roller.files)| <==>
                  rolled > old(roller.lastRoll) &&
                  (size > roller.rollSize ||
                   (old(roller.count) > 1024 && TruncDiv(checked, day) != TruncDiv(old(roller.lastRoll), day))))
      ensures Held() == old(Held()) && (old(Valid()) ==> Valid())
    {
      hide RollerOk, Texts, AppendFile;
      if RollerOk(roller) {
        AppendFileWrites(roller, buffersToWrite[k].text, checked, rolled);
        RollsIff(roller, buffersToWrite[k].text, checked, rolled);
      }
      AppendUnlocked(buffersToWrite[k].text, checked, rolled);
    }

    method AppendUnlocked(logline: string, checked: int, rolled: int)
      requires |roller.files| >= 1
      modifies this`roller
      ensures roller == AppendFile(old(roller), logline, checked, rolled) && |roller.files| >= 1
    {
      hide TruncDiv;
      var file := Current(roller);
      roller := roller.(files := roller.files[|roller.files| - 1 := file.(text := file.text + logline)]);
      if |Current(roller).text| > roller.rollSize {
        roller := roller.(count := 0);
        RollFile(rolled);
      } else if roller.count > CHECK_TIME_ROLL {
        roller := roller.(count := 0);
        var thisPeriod := TruncDiv(checked, ROLL_PER_SECONDS) * ROLL_PER_SECONDS;
        if thisPeriod != roller.startOfPeriod {
          RollFile(rolled);
        }
      } else {
        roller := roller.(count := roller.count + 1);
      }
    }

    method RollFile(now: int)
      modifies this`roller
      ensures roller == Roll(old(roller), now)
    {
      if now > roller.lastRoll {
        var startOfPeriod := TruncDiv(now, ROLL_PER_SECONDS) * ROLL_PER_SECONDS;
        roller := roller.(lastRoll := now, startOfPeriod := startOfPeriod, files := roller.files + [File(now, "")]);
      }
    }

    /** The same on the whole state. */
    method WriteStep(k: nat, checked: int, rolled: int, ghost l: Logger)
      requires Shows(l) && k < |buffersToWrite| && |l.roller.files| >= 1
      modifies this`roller
      ensures |l.toWrite| == |buffersToWrite|
              && State() == l.(roller := AppendFile(l.roller, l.toWrite[k], checked, rolled))
      ensures Held() == old(Held()) && (old(Valid()) ==> Valid())
    {
      hide Valid, Held, Contents, AppendFile, RollerOk, Texts;
      ShownFields(l);
      WriteBuffer(k, checked, rolled);
    }

    lemma SpareThere(l: Logger)
      requires Shows(l)
      ensures buffer1 != null ==> State() == ReuseFirst(l)
      ensures buffer2 != null ==> State() == ReuseSecond(l)
    {
    }

    method RecycleFirst()
      requires Valid() && buffer1 == null && |buffersToWrite| > 0
      modifies this`buffer1, this`buffersToWrite, buffersToWrite
      ensures Valid() && Held() == old(Held()) && State() == ReuseFirst(old(State()))
      ensures buffersToWrite == old(buffersToWrite)[..|old(buffersToWrite)| - 1]
    {
      hide Single, Bag;
      BagRecycles(currentBuffer, nextBuffer, buffers, buffersToWrite, buffer2);
      ContentsLength(buffersToWrite);
      buffer1 := buffersToWrite[|buffersToWrite| - 1];
      buffersToWrite := buffersToWrite[..|buffersToWrite| - 1];
      Apart();
      buffer1.Reset();
    }

    method RecycleSecond()
      requires Valid() && buffer2 == null && |buffersToWrite| > 0
      modifies this`buffer2, this`buffersToWrite, buffersToWrite
      ensures Valid() && Held() == old(Held()) && State() == ReuseSecond(old(State()))
      ensures buffersToWrite == old(buffersToWrite)[..|old(buffersToWrite)| - 1]
    {
      hide Single, Bag;
      BagRecycles(currentBuffer, nextBuffer, buffers, buffersToWrite, buffer1);
      ContentsLength(buffersToWrite);
      buffer2 := buffersToWrite[|buffersToWrite| - 1];
      buffersToWrite := buffersToWrite[..|buffersToWrite| - 1];
      Apart();
      buffer2.Reset();
    }

    method ClearWritten()
      requires Valid()
      modifies this`buffersToWrite
      ensures Valid() && Held() <= old(Held()) && State() == old(State()).(toWrite := [])
    {
      hide Single, Bag;
      BagClears(currentBuffer, nextBuffer, buffers, buffersToWrite, buffer1, buffer2);
      buffersToWrite := [];
      FewerSingle(Held(), old(Held()));
    }
  }
}
