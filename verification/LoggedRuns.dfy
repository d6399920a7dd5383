/**
 What the delta log accepts: exactly the well-formed next delta. So it takes every delta a live coordinator
 hands over, and logging a stream that missed no commit replays all of it.
 */
module LoggedRuns {
  import opened Wire
  import opened Frames
  import opened Replication
  import opened Commit
  import opened CommitRuns
  import opened Follower
  import opened FollowerRuns
  import opened DeltaLogs
  import opened DeltaLogRuns

  // ------------------------------------------------------------- what is recorded

  /** Marked, of this version, with every required key, and storing or deleting in every operation. */
  ghost predicate WellFormed(d: Delta) {
    && d.marker == "datacrystal-delta" && d.version == 2 && d.complete
    && forall i :: 0 <= i < |d.ops| ==> d.ops[i].kind == Upsert || d.ops[i].kind == Delete
  }

  ghost predicate Headed(d: Delta) {
    d.marker == "datacrystal-delta" && d.version == 2 && d.complete
  }

  /** The verdict, whatever else the log holds: of well-headed deltas an older one is skipped, one further
      ahead is a gap, and the next one is recorded exactly when it is well formed. */
  lemma JudgeMeans(m: Memory, d: Delta)
    ensures Judge(m, d) == Advanced <==> WellFormed(d) && d.tid == m.applied + 1
    ensures Judge(m, d) == Skipped <==> Headed(d) && d.tid <= m.applied
    ensures Judge(m, d) == GapError <==> Headed(d) && d.tid > m.applied + 1
    ensures Judge(m, d) == FormatError <==> !Headed(d) || (!WellFormed(d) && d.tid == m.applied + 1)
  {
    forall i | 0 <= i < |d.ops|
      ensures !d.ops[i].kind.Unknown? <==> d.ops[i].kind == Upsert || d.ops[i].kind == Delete
    {
    }
  }

  /** Recording one delta: it is the last recorded one, whether it is flushed at once or waits. */
  lemma NextIsRecorded(y: LogSystem, d: Delta, raw: Bytes)
    requires WellFormed(d) && d.tid == y.mem.applied + 1 && DeltaLogRuns.Encodes(y.tidOf, d, raw)
    ensures var z := LogExec(y, LApply(d, raw, None));
      z.recorded == y.recorded + [Entry(d.tid, raw)] && z.mem.applied == d.tid && z.mem.genesisTid == y.mem.genesisTid
  {
    JudgeMeans(y.mem, d);
    hide RawsOf, Append, Blob;
  }

  lemma OlderIsSkipped(y: LogSystem, d: Delta, raw: Bytes, cut: Option<nat>)
    requires Headed(d) && d.tid <= y.mem.applied
    ensures LogExec(y, LApply(d, raw, cut)) == y
  {
    JudgeMeans(y.mem, d);
  }

  // ------------------------------------------------- the deltas of a coordinator

  /** A delta some applier takes is well formed. */
  lemma AcceptedIsWellFormed(a: ApplierState, d: Delta)
    requires ApplierStep(a, d).1 == Advanced
    ensures WellFormed(d)
  {
    FoldsWhenAcceptable(a.objects, AddTypes(a.types, d.types), d.ops);
    hide FoldOps, AddTypes, HeldBefore;
    forall i | 0 <= i < |d.ops|
      ensures d.ops[i].kind == Upsert || d.ops[i].kind == Delete
    {
      assert Acceptable(a.objects, AddTypes(a.types, d.types), d.ops, i);
    }
  }

  lemma EmittedByIsWellFormed(y: System, step: Step)
    requires Inv(y)
    ensures forall d :: d in EmittedBy(y, step) ==> WellFormed(d)
  {
    if EmittedBy(y, step) != [] {
      AcceptedIsWellFormed(Image(y.base), y.flight.value.delta.value);
    }
    hide WellFormed;
  }

  /** Every delta a run of the commit machine hands over is well formed, so recorded when its TID is next. */
  lemma {:induction false} EmittedIsWellFormed(steps: seq<Step>)
    ensures forall i :: 0 <= i < |Emitted(steps)| ==> WellFormed(Emitted(steps)[i])
  {
    hide Inv, Exec, WellFormed, EmittedBy;
    if steps != [] {
      var front, step := steps[..|steps| - 1], steps[|steps| - 1];
      EmittedIsWellFormed(front);
      Reached(front);
      EmittedByIsWellFormed(CommitRuns.After(front), step);
      var more := EmittedBy(CommitRuns.After(front), step);
      forall i | 0 <= i < |Emitted(steps)|
        ensures WellFormed(Emitted(steps)[i])
      {
        if i >= |Emitted(front)| {
          assert Emitted(steps)[i] == more[i - |Emitted(front)|];
          assert more[i - |Emitted(front)|] in more;
        }
      }
    }
  }

  // ---------------------------------------------------------- logging the stream

  /** The log is fed this stream in order: each delta when it is next, perhaps again later, with flushes
      anywhere between. */
  ghost predicate Feeds(ls: seq<LogStep>, ds: seq<Delta>, raws: seq<Bytes>)
    requires |ds| == |raws|
  {
    if ls == [] then ds == []
    else
      var front, last := ls[..|ls| - 1], ls[|ls| - 1];
      match last
      case LFlush(cut) => cut.None? && Feeds(front, ds, raws)
      case LReopen => false
      case LApply(d, raw, cut) =>
        cut.None? &&
        if ds != [] && d == ds[|ds| - 1] && raw == raws[|raws| - 1]
        then Feeds(front, ds[..|ds| - 1], raws[..|raws| - 1]) || Feeds(front, ds, raws)
        else d in ds && Feeds(front, ds, raws)
  }

  ghost predicate Encoded(tidOf: Bytes -> Tid, ds: seq<Delta>, raws: seq<Bytes>) {
    |ds| == |raws| && forall i :: 0 <= i < |ds| ==> DeltaLogRuns.Encodes(tidOf, ds[i], raws[i])
  }

  /** Every delta fed is recorded, in order, and nothing else. */
  ghost predicate RecordsAll(y: LogSystem, ds: seq<Delta>, raws: seq<Bytes>) {
    && y.mem.applied == |ds| == |raws| == |y.recorded| && y.mem.genesisTid == 0
    && forall i :: 0 <= i < |ds| ==> y.recorded[i] == Entry(ds[i].tid, raws[i])
  }

  lemma FlushRecords(y: LogSystem, ds: seq<Delta>, raws: seq<Bytes>)
    requires RecordsAll(y, ds, raws)
    ensures RecordsAll(LogExec(y, LFlush(None)), ds, raws)
  {
    hide RawsOf, Append, Blob;
  }

  lemma {:induction false} FedIsRecorded(cfg: Config, tidOf: Bytes -> Tid, ls: seq<LogStep>, ds: seq<Delta>, raws: seq<Bytes>)
    requires Encoded(tidOf, ds, raws) && Feeds(ls, ds, raws) && FromGenesis(ds)
    requires forall i :: 0 <= i < |ds| ==> WellFormed(ds[i])
    ensures RecordsAll(LogRun(FromZero(cfg, tidOf), ls), ds, raws)
    decreases |ls|
  {
    hide LogExec, WellFormed, DeltaLogRuns.Encodes, Headed;
    var start := FromZero(cfg, tidOf);
    if ls != [] {
      var front, last := ls[..|ls| - 1], ls[|ls| - 1];
      var before := LogRun(start, front);
      TidOfIsFixed(start, front);
      if last.LFlush? {
        FedIsRecorded(cfg, tidOf, front, ds, raws);
        FlushRecords(before, ds, raws);
      } else if last.LApply? {
        if ds != [] && last.d == ds[|ds| - 1] && last.raw == raws[|raws| - 1] && Feeds(front, ds[..|ds| - 1], raws[..|raws| - 1]) {
          FedIsRecorded(cfg, tidOf, front, ds[..|ds| - 1], raws[..|raws| - 1]);
          NextIsRecorded(before, last.d, last.raw);
        } else {
          FedIsRecorded(cfg, tidOf, front, ds, raws);
          var i :| 0 <= i < |ds| && ds[i] == last.d;
          WellFormedIsHeaded(last.d);
          OlderIsSkipped(before, last.d, last.raw, last.cut);
        }
      }
    }
  }

  lemma WellFormedIsHeaded(d: Delta)
    requires WellFormed(d)
    ensures Headed(d)
  {
  }

  /** Log the whole stream of a coordinator from its first commit on, flushing whenever, and the replay past
      any cursor is the stream past it: every delta, byte for byte and in order. */
  lemma LogOfCoordinator(steps: seq<Step>, cfg: Config, tidOf: Bytes -> Tid, raws: seq<Bytes>, ls: seq<LogStep>, after: Tid)
    requires cfg.flushEvery >= 1 && Complete(CommitRuns.After(steps), Emitted(steps))
    requires Encoded(tidOf, Emitted(steps), raws) && Feeds(ls, Emitted(steps), raws) && after <= |raws|
    ensures var y := LogRun(FromZero(cfg, tidOf), ls);
      Replay(y.mem, y.disk.files, tidOf, after) == raws[after..]
  {
    hide LogInv, LogRun, FromZero, Replay, Feeds, Inv, StreamOk, WellFormed, DeltaLogRuns.Encodes;
    var y := LogRun(FromZero(cfg, tidOf), ls);
    EmittedIsWellFormed(steps);
    StreamFromGenesis(steps);
    FedIsRecorded(cfg, tidOf, ls, Emitted(steps), raws);
    StartsOk(cfg, tidOf, 0, []);
    LogRunKeeps(FromZero(cfg, tidOf), ls);
    TidOfIsFixed(FromZero(cfg, tidOf), ls);
    StartsAt(cfg, tidOf);
    ReplayIsRecorded(y, after);
    RawsRecorded(y, Emitted(steps), raws, after);
  }

  lemma StreamFromGenesis(steps: seq<Step>)
    requires Complete(CommitRuns.After(steps), Emitted(steps))
    ensures FromGenesis(Emitted(steps))
  {
    RunFollows(steps);
  }

  lemma RawsRecorded(y: LogSystem, ds: seq<Delta>, raws: seq<Bytes>, after: Tid)
    requires RecordsAll(y, ds, raws) && after <= |raws|
    ensures RecordedAfter(y.recorded, y.mem.genesisTid, after) == raws[after..]
  {
    assert y.recorded[0..] == y.recorded;
  }

  // ------------------------------------------------------------ what waits, where it goes

  /** A flush opens a segment exactly when there is none yet or the last has reached the size limit. */
  lemma FlushOpensSegmentIff(cfg: Config, m: Memory, disk: DeltaLogs.Disk)
    requires m.buffer != []
    ensures var z, n := Flushed(cfg, m, disk).0, |m.segments|;
      var opens := n == 0 || m.segments[n - 1].nbytes >= cfg.maxSegmentBytes;
      && |z.segments| == (if opens then n + 1 else n)
      && z.segments[|z.segments| - 1].name == (if opens then m.nextSegment else m.segments[n - 1].name)
      && z.nextSegment == (if opens then m.nextSegment + 1 else m.nextSegment)
      && (forall i :: 0 <= i < |z.segments| - 1 ==> z.segments[i] == m.segments[i])
  {
    hide RawsOf, Append, Blob;
  }

  /** A flush that dies leaves the manifest, and every file but the current segment's, as they were; that one
      is longer by the first bytes of the frames. */
  lemma TornMeans(cfg: Config, m: Memory, disk: DeltaLogs.Disk, n: nat)
    requires m.buffer != []
    ensures var torn, cur, blob := Torn(cfg, m, disk, n), CurrentName(EnsureSegment(cfg, m)), FrameAll(RawsOf(m.buffer));
      && torn.manifest == disk.manifest && cur in torn.files
      && (forall f :: f != cur ==> (f in torn.files <==> f in disk.files) && (f in disk.files ==> torn.files[f] == disk.files[f]))
      && var was := if cur in disk.files then disk.files[cur] else [];
      && |torn.files[cur]| - |was| == (if n < |blob| then n else |blob|)
      && was <= torn.files[cur] <= was + blob
  {
    hide FrameAll;
  }

  /** As many deltas wait as were recorded since the last flush, and fewer than the log flushes at. */
  ghost predicate HoldsBackFew(y: LogSystem) {
    |y.mem.buffer| == y.mem.sinceFlush < y.cfg.flushEvery && y.mem.applied == y.mem.watermark + |y.mem.buffer|
  }

  lemma FlushedHoldsNone(cfg: Config, m: Memory, disk: DeltaLogs.Disk)
    requires m.applied == m.watermark + |m.buffer| && (m.buffer == [] ==> m.sinceFlush == 0)
    ensures var z := Flushed(cfg, m, disk).0; z.buffer == [] && z.sinceFlush == 0 && z.applied == z.watermark
  {
    hide RawsOf, Append, Blob;
  }

  lemma LoadedHoldsNone(disk: DeltaLogs.Disk)
    ensures var z := Loaded(disk); z.buffer == [] && z.sinceFlush == 0 && z.applied == z.watermark
  {
  }

  lemma FlushHoldsBack(y: LogSystem, cut: Option<nat>)
    requires y.cfg.flushEvery >= 1 && y.mem.applied == y.mem.watermark + |y.mem.buffer| && y.mem.sinceFlush == |y.mem.buffer|
    ensures HoldsBackFew(FlushStep(y, cut)) && FlushStep(y, cut).cfg == y.cfg
  {
    FlushedHoldsNone(y.cfg, y.mem, y.disk);
    if cut.Some? {
      LoadedHoldsNone(Torn(y.cfg, y.mem, y.disk, cut.value));
    }
    hide Flushed, Loaded, Torn, CutBack, KeepNamed;
  }

  lemma StepHoldsBack(y: LogSystem, step: LogStep)
    requires HoldsBackFew(y)
    ensures HoldsBackFew(LogExec(y, step))
  {
    match step
    case LApply(d, raw, cut) =>
      var z := y.(mem := DeltaLogs.Buffered(y.mem, d, raw), recorded := y.recorded + [Entry(d.tid, raw)]);
      if Judge(y.mem, d) == Advanced {
        JudgeMeans(y.mem, d);
        FlushHoldsBack(z, cut);
      }
      hide FlushStep, Judge;
    case LFlush(cut) =>
      FlushHoldsBack(y, cut);
      hide FlushStep;
    case LReopen =>
      LoadedHoldsNone(y.disk);
      hide Loaded, CutBack, KeepNamed;
  }

  /** In every run, crashes included, fewer deltas wait in memory than the log flushes at: no more than those
      are ever lost. */
  lemma {:induction false} RunHoldsBack(cfg: Config, tidOf: Bytes -> Tid, steps: seq<LogStep>)
    requires cfg.flushEvery >= 1
    ensures HoldsBackFew(LogRun(FromZero(cfg, tidOf), steps)) && LogRun(FromZero(cfg, tidOf), steps).cfg == cfg
  {
    hide LogInv, LogExec, HoldsBackFew;
    StartsOk(cfg, tidOf, 0, []);
    if steps == [] {
      NothingHeldBack(cfg, tidOf);
    } else {
      var front := steps[..|steps| - 1];
      RunHoldsBack(cfg, tidOf, front);
      TidOfIsFixed(FromZero(cfg, tidOf), steps);
      StartsAt(cfg, tidOf);
      StepHoldsBack(LogRun(FromZero(cfg, tidOf), front), steps[|steps| - 1]);
    }
  }

  lemma NothingHeldBack(cfg: Config, tidOf: Bytes -> Tid)
    requires cfg.flushEvery >= 1
    ensures HoldsBackFew(FromZero(cfg, tidOf))
  {
  }
}
