/**
 * The client logger (src/utils/logger.js): level filtering, the entry buffer
 * with its flush-when-full rule, `_extractData`, and the correlation id.
 *
 * Requests to the backend are not sent: each one is appended to a trace of
 * shipments, a single entry or a batch, in the order the logger issues them.
 * The clock, the page URL and the user agent are inputs of each call.
 */
module Logging {
  import opened JsText

  datatype Level = Debug | Info | Warn | Error

  /** `LOG_LEVELS`. */
  function Rank(l: Level): nat
  {
    match l
    case Debug => 0
    case Info => 1
    case Warn => 2
    case Error => 3
  }

  /** The four levels are strictly ordered DEBUG < INFO < WARN < ERROR. */
  lemma RankOrder()
    ensures Rank(Debug) < Rank(Info) < Rank(Warn) < Rank(Error)
    ensures forall a: Level, b: Level :: Rank(a) == Rank(b) ==> a == b
  {
  }

  /** The console methods the logger replaces. */
  datatype ConsoleMethod = ConsoleLog | ConsoleDebug | ConsoleInfo | ConsoleWarn | ConsoleError

  /** `levelMap` of the console interceptor. */
  function ConsoleLevel(m: ConsoleMethod): (l: Level)
  {
    match m
    case ConsoleLog => Debug
    case ConsoleDebug => Debug
    case ConsoleInfo => Info
    case ConsoleWarn => Warn
    case ConsoleError => Error
  }

  /** `console.log` is filed as debug; every other method under its own name. */
  lemma ConsoleLevelSpec()
    ensures ConsoleLevel(ConsoleLog) == ConsoleLevel(ConsoleDebug) == Debug
    ensures forall m :: ConsoleLevel(m) == Debug <==> m == ConsoleLog || m == ConsoleDebug
    ensures forall m :: m != ConsoleLog ==> ConsoleLevel(m) == (match m
                                                              case ConsoleDebug => Debug
                                                              case ConsoleInfo => Info
                                                              case ConsoleWarn => Warn
                                                              case _ => Error)
  {
  }

  // ---------------------------------------------------------------- arguments

  /** A logged argument: a primitive (as `String` renders it), a non-null object (as its JSON text), or `null`. */
  datatype Arg = Prim(text: string) | Obj(json: string) | NullArg

  /** `_formatArg`: objects as JSON (`null` gives `"null"`), everything else through `String`. */
  function FormatArg(a: Arg): string
  {
    match a
    case Prim(t) => t
    case Obj(j) => j
    case NullArg => "null"
  }

  function FormatArgs(args: seq<Arg>): (r: seq<string>)
    ensures |r| == |args|
    ensures forall i :: 0 <= i < |args| ==> r[i] == FormatArg(args[i])
  {
    if args == [] then [] else [FormatArg(args[0])] + FormatArgs(args[1..])
  }

  /** The entry message: the formatted arguments joined by single spaces. */
  function Message(args: seq<Arg>): string
  {
    Join(" ", FormatArgs(args))
  }

  /** The non-null object arguments, in order. */
  function Objects(args: seq<Arg>): (r: seq<string>)
    ensures |r| <= |args|
    ensures forall x :: x in r <==> Obj(x) in args
  {
    if args == [] then []
    else
      assert forall a :: a in args <==> a == args[0] || a in args[1..];
      if args[0].Obj? then [args[0].json] + Objects(args[1..]) else Objects(args[1..])
  }

  /** Adding an argument at the end adds its object, if any, at the end. */
  lemma {:induction false} ObjectsSnoc(args: seq<Arg>, a: Arg)
    ensures Objects(args + [a]) == Objects(args) + (if a.Obj? then [a.json] else [])
  {
    if args == [] {
      assert args + [a] == [a];
    } else {
      assert (args + [a])[0] == args[0];
      assert (args + [a])[1..] == args[1..] + [a];
      ObjectsSnoc(args[1..], a);
    }
  }

  /** The property name `arg<i>`. */
  function ArgKey(i: nat): string
  {
    "arg" + NatToString(i)
  }

  function KeyFrom(objs: seq<string>, start: nat): (r: seq<(string, string)>)
    ensures |r| == |objs|
    ensures forall i :: 0 <= i < |objs| ==> r[i] == (ArgKey(start + i), objs[i])
  {
    if objs == [] then [] else [(ArgKey(start), objs[0])] + KeyFrom(objs[1..], start + 1)
  }

  /**
   * `_extractData`: the resulting object as its property list in insertion
   * order (`arg0`, `arg1`, … are not array indices, so this is also the
   * order `Object.entries` reports).
   */
  function ExtractData(args: seq<Arg>): (r: seq<(string, string)>)
    ensures |r| == |Objects(args)|
    ensures forall i :: 0 <= i < |r| ==> r[i] == (ArgKey(i), Objects(args)[i])
  {
    KeyFrom(Objects(args), 0)
  }

  /** The keys are pairwise distinct, so no object overwrites another. */
  lemma ExtractDataKeysDistinct(args: seq<Arg>)
    ensures forall i, j :: 0 <= i < j < |ExtractData(args)| ==> ExtractData(args)[i].0 != ExtractData(args)[j].0
  {
    var r := ExtractData(args);
    forall i, j | 0 <= i < j < |r|
      ensures r[i].0 != r[j].0
    {
      if ArgKey(i) == ArgKey(j) {
        assert NatToString(i) == ArgKey(i)[3..] == ArgKey(j)[3..] == NatToString(j);
        NatToStringInjective(i, j);
      }
    }
  }

  // ---------------------------------------------------------------- entries and the buffer

  /** What `_log` reads from the page: the clock, `window.location.href` and `navigator.userAgent`. */
  datatype Ambient = Ambient(timestamp: string, url: string, userAgent: string)

  datatype Entry = Entry(level: Level, message: string, timestamp: string, url: string,
                         userAgent: string, correlationId: string, data: seq<(string, string)>)

  function MakeEntry(l: Level, args: seq<Arg>, env: Ambient, correlationId: string): Entry
  {
    Entry(l, Message(args), env.timestamp, env.url, env.userAgent, correlationId, ExtractData(args))
  }

  /** One request to the log endpoints: `sendToBackend` of one entry, or `flushBatch` of a batch. */
  datatype Shipment = Single(entry: Entry) | Batch(entries: seq<Entry>)

  /** `batchSize`. */
  const BatchSize: nat := 50

  /** The entries shipped in batches, in shipping order. */
  function Batched(shipped: seq<Shipment>): seq<Entry>
  {
    if shipped == [] then []
    else
      var last := shipped[|shipped| - 1];
      Batched(shipped[..|shipped| - 1]) + (if last.Batch? then last.entries else [])
  }

  /** The logger's buffer and what it has shipped so far. */
  datatype Buffer = Buffer(batch: seq<Entry>, shipped: seq<Shipment>)

  /** `flushBatch`: nothing when empty; otherwise ship the batch and start a new one. */
  function Flush(b: Buffer): Buffer
  {
    if b.batch == [] then b else Buffer([], b.shipped + [Batch(b.batch)])
  }

  /** The buffer effect of an accepted `_log`: push, send errors at once, flush when full. */
  function Push(b: Buffer, e: Entry): Buffer
  {
    var batch := b.batch + [e];
    var shipped := b.shipped + (if e.level == Error then [Single(e)] else []);
    if |batch| >= BatchSize then Flush(Buffer(batch, shipped)) else Buffer(batch, shipped)
  }

  /** Every entry ever accepted, in order: those shipped in batches, then those still buffered. */
  function Accepted(b: Buffer): seq<Entry>
  {
    Batched(b.shipped) + b.batch
  }

  /** A flush empties the batch, loses nothing, and does nothing to an empty batch. */
  lemma FlushSpec(b: Buffer)
    ensures Flush(b).batch == []
    ensures Accepted(Flush(b)) == Accepted(b)
    ensures b.batch == [] ==> Flush(b) == b
    ensures b.batch != [] ==> Flush(b).shipped == b.shipped + [Batch(b.batch)]
  {
    if b.batch != [] {
      var s := b.shipped + [Batch(b.batch)];
      assert s[..|s| - 1] == b.shipped;
    }
  }

  lemma BatchedSingle(shipped: seq<Shipment>, e: Entry)
    ensures Batched(shipped + [Single(e)]) == Batched(shipped)
  {
    var s := shipped + [Single(e)];
    assert s[..|s| - 1] == shipped;
  }

  /**
   * An accepted entry goes to the end of the log, nothing is lost or
   * reordered, earlier shipments stay as they were, and the batch stays
   * below `batchSize`.
   */
  lemma PushSpec(b: Buffer, e: Entry)
    requires |b.batch| < BatchSize
    ensures |Push(b, e).batch| < BatchSize
    ensures Accepted(Push(b, e)) == Accepted(b) + [e]
    ensures |Push(b, e).shipped| >= |b.shipped| && Push(b, e).shipped[..|b.shipped|] == b.shipped
  {
    var batch := b.batch + [e];
    var shipped := b.shipped + (if e.level == Error then [Single(e)] else []);
    if e.level == Error {
      BatchedSingle(b.shipped, e);
    } else {
      assert shipped == b.shipped;
    }
    assert Batched(shipped) == Batched(b.shipped);
    FlushSpec(Buffer(batch, shipped));
  }

  /** An error entry is sent on its own at once, and only an error entry is. */
  lemma PushSendsErrorsAtOnce(b: Buffer, e: Entry)
    ensures var r := Push(b, e);
      e.level == Error <==> |r.shipped| > |b.shipped| && r.shipped[|b.shipped|] == Single(e)
  {
  }

  /** While the batch has room, an accepted entry stays in it and nothing is flushed. */
  lemma PushBelowLimit(b: Buffer, e: Entry)
    requires |b.batch| + 1 < BatchSize
    ensures Push(b, e).batch == b.batch + [e]
    ensures Push(b, e).shipped == b.shipped + (if e.level == Error then [Single(e)] else [])
  {
  }

  /** The entry that fills the batch ships the whole batch, itself included. */
  lemma PushAtLimit(b: Buffer, e: Entry)
    requires |b.batch| + 1 == BatchSize
    ensures Push(b, e).batch == []
    ensures Push(b, e).shipped[|Push(b, e).shipped| - 1] == Batch(b.batch + [e])
  {
  }

  /** The buffer after `_log` of `e` under `threshold`: an entry below the threshold is dropped, any other is pushed. */
  function Logged(b: Buffer, threshold: Level, e: Entry): Buffer
  {
    if Rank(e.level) < Rank(threshold) then b else Push(b, e)
  }

  /** A logged entry is accepted exactly when it reaches the threshold, and the batch stays below `batchSize`. */
  lemma LoggedSpec(b: Buffer, threshold: Level, e: Entry)
    requires |b.batch| < BatchSize
    ensures |Logged(b, threshold, e).batch| < BatchSize
    ensures Accepted(Logged(b, threshold, e)) == Accepted(b) + (if Rank(e.level) >= Rank(threshold) then [e] else [])
  {
    if Rank(e.level) >= Rank(threshold) {
      PushSpec(b, e);
    } else {
      assert Accepted(b) + [] == Accepted(b);
    }
  }

  // ---------------------------------------------------------------- the logger

  class Logger {
    /** The threshold; the source derives it from the build mode. */
    var level: Level
    var logBatch: seq<Entry>
    var correlationId: string
    /** The requests issued to the log endpoints, oldest first. */
    var shipped: seq<Shipment>

    ghost predicate Valid()
      reads this
    {
      |logBatch| < BatchSize
    }

    /** The generated correlation id is an input. */
    constructor(threshold: Level, id: string)
      ensures Valid()
      ensures level == threshold && logBatch == [] && correlationId == id && shipped == []
    {
      level := threshold;
      logBatch := [];
      correlationId := id;
      shipped := [];
    }

    /** `flushBatch`, the buffer part. */
    method FlushBatch()
      modifies this
      ensures Buffer(logBatch, shipped) == Flush(old(Buffer(logBatch, shipped)))
      ensures level == old(level) && correlationId == old(correlationId)
    {
      if |logBatch| == 0 {
        return;
      }
      var batch := logBatch;
      logBatch := [];
      shipped := shipped + [Batch(batch)];
    }

    /** `_log`. */
    method Log(l: Level, args: seq<Arg>, env: Ambient)
      requires Valid()
      modifies this
      ensures Valid()
      ensures level == old(level) && correlationId == old(correlationId)
      ensures Rank(l) < Rank(level) ==> logBatch == old(logBatch) && shipped == old(shipped)
      ensures Rank(l) >= Rank(level) ==>
        Buffer(logBatch, shipped) == Push(old(Buffer(logBatch, shipped)), MakeEntry(l, args, env, correlationId))
    {
      if Rank(l) < Rank(level) {
        return;
      }
      var entry := MakeEntry(l, args, env, correlationId);
      PushSpec(Buffer(logBatch, shipped), entry);
      logBatch := logBatch + [entry];
      if l == Error {
        shipped := shipped + [Single(entry)];
      }
      if |logBatch| >= BatchSize {
        FlushBatch();
      }
    }

    /** `debug`, `info`, `warn` and `error`: act only when the threshold is at most the level. */
    method Emit(l: Level, args: seq<Arg>, env: Ambient)
      requires Valid()
      modifies this
      ensures Valid()
      ensures level == old(level) && correlationId == old(correlationId)
      ensures Rank(level) > Rank(l) ==> logBatch == old(logBatch) && shipped == old(shipped)
      ensures Rank(level) <= Rank(l) ==>
        Buffer(logBatch, shipped) == Push(old(Buffer(logBatch, shipped)), MakeEntry(l, args, env, correlationId))
    {
      if Rank(level) <= Rank(l) {
        Log(l, args, env);
      }
    }

    /** An intercepted console call, filed under the level `levelMap` gives its method. */
    method Intercept(m: ConsoleMethod, args: seq<Arg>, env: Ambient)
      requires Valid()
      modifies this
      ensures Valid()
      ensures level == old(level) && correlationId == old(correlationId)
      ensures Rank(ConsoleLevel(m)) < Rank(level) ==> logBatch == old(logBatch) && shipped == old(shipped)
      ensures Rank(ConsoleLevel(m)) >= Rank(level) ==>
        Buffer(logBatch, shipped) == Push(old(Buffer(logBatch, shipped)), MakeEntry(ConsoleLevel(m), args, env, correlationId))
    {
      Log(ConsoleLevel(m), args, env);
    }

    method SetCorrelationId(id: string)
      modifies this
      ensures correlationId == id
      ensures level == old(level) && logBatch == old(logBatch) && shipped == old(shipped)
    {
      correlationId := id;
    }

    method GetCorrelationId() returns (id: string)
      ensures id == correlationId
    {
      id := correlationId;
    }
  }
}
