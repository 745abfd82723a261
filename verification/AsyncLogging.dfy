/** The shared list of loggers and what producers and worker do with it (log/AsyncLogging.cpp). */
module AsyncLoggings {
  import opened AsyncLoggers
  import opened LogSpec

  class AsyncLogging {
    var asyncLoggers: seq<AsyncLogger>

    constructor ()
      ensures asyncLoggers == []
    {
      asyncLoggers := [];
    }

    /** A producer's step, under the mutex. */
    method Append(asyncLogger: AsyncLogger, line: string)
      requires asyncLogger.Valid()
      modifies this, asyncLogger, asyncLogger.currentBuffer, asyncLogger.nextBuffer
      ensures asyncLogger.Valid() && asyncLogger.State() == AppendLine(old(asyncLogger.State()), line)
      ensures forall b :: b in asyncLogger.Held() && b !in old(asyncLogger.Held()) ==> fresh(b)
      ensures asyncLoggers == if old(asyncLogger.notEmpty) then old(asyncLoggers) else old(asyncLoggers) + [asyncLogger]
    {
      hide AsyncLogger.Valid, AsyncLogger.Held;
      var notEmpty := asyncLogger.notEmpty;
      asyncLogger.AppendToBufferLocked(line);
      if !notEmpty {
        asyncLoggers := asyncLoggers + [asyncLogger];
      }
    }

    /** The worker's step under the mutex: it takes the list and swaps every logger on it. */
    method SwapAsyncLoggersToWrite() returns (batch: seq<AsyncLogger>)
      requires forall i :: 0 <= i < |asyncLoggers| ==> asyncLoggers[i].Valid() && SwapSafe(asyncLoggers[i].State())
      requires forall i, j :: 0 <= i < j < |asyncLoggers| ==> asyncLoggers[i] != asyncLoggers[j]
      modifies this, asyncLoggers
      ensures batch == old(asyncLoggers) && asyncLoggers == []
      ensures forall i :: 0 <= i < |batch| ==> batch[i].Valid() && batch[i].Held() == old(batch[i].Held())
      ensures forall i :: 0 <= i < |batch| ==> batch[i].Buffers() == old(batch[i].Buffers())
      ensures forall i :: 0 <= i < |batch| ==> batch[i].State() == Swap(old(batch[i].State()))
    {
      hide AsyncLogger.Valid, AsyncLogger.Held, AsyncLogger.Buffers, Swap, AsyncLogger.State;
      batch := asyncLoggers;
      asyncLoggers := [];
      for k := 0 to |batch|
        invariant asyncLoggers == []
        invariant forall i :: 0 <= i < |batch| ==> batch[i].Valid() && batch[i].Held() == old(batch[i].Held())
        invariant forall i :: 0 <= i < |batch| ==> batch[i].Buffers() == old(batch[i].Buffers())
        invariant forall i :: 0 <= i < k ==> batch[i].State() == Swap(old(batch[i].State()))
        invariant forall i :: k <= i < |batch| ==> batch[i].State() == old(batch[i].State())
      {
        batch[k].SwapBuffersToWriteLocked();
      }
    }
  }
}
