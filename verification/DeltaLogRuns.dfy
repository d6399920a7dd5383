/**
 Every run of the delta log: applies with automatic flushes, explicit flushes, crashes between
 operations and inside the append, reopens. Whatever happened, a reopened log replays exactly the
 deltas recorded up to the durable watermark.
 */
module DeltaLogRuns {
  import opened Wire
  import opened Frames
  import opened DeltaLogs

  /** `recorded` is every delta the log has accepted and not lost to a crash. */
  datatype LogSystem = LogSystem(cfg: Config, tidOf: Bytes -> Tid, mem: Memory, disk: Disk, recorded: seq<Entry>)

  datatype LogStep =
    | LApply(d: Delta, raw: Bytes, cut: Option<nat>)
    | LFlush(cut: Option<nat>)
    | LReopen

  /** `raw` is the encoding of the delta: decodable to its TID, and short enough to frame. */
  ghost predicate Encodes(tidOf: Bytes -> Tid, d: Delta, raw: Bytes) {
    tidOf(raw) == d.tid && Framable(raw)
  }

  ghost predicate StepOk(y: LogSystem, step: LogStep) {
    step.LApply? ==> Encodes(y.tidOf, step.d, step.raw)
  }

  /** The deltas on disk: a crash keeps these. */
  ghost function Durable(y: LogSystem): seq<Entry>
    requires y.mem.genesisTid <= y.mem.watermark <= y.mem.genesisTid + |y.recorded|
  {
    y.recorded[..y.mem.watermark - y.mem.genesisTid]
  }

  ghost function Crash(y: LogSystem, disk: Disk): LogSystem {
    var (m, d) := Reopened(disk);
    y.(mem := m, disk := d,
       recorded := if y.mem.genesisTid <= y.mem.watermark <= y.mem.genesisTid + |y.recorded| then Durable(y) else y.recorded)
  }

  ghost function FlushStep(y: LogSystem, cut: Option<nat>): LogSystem {
    if cut.Some? && y.mem.buffer != [] then Crash(y, Torn(y.cfg, y.mem, y.disk, cut.value))
    else
      var (m, d) := Flushed(y.cfg, y.mem, y.disk);
      y.(mem := m, disk := d)
  }

  ghost function LogExec(y: LogSystem, step: LogStep): LogSystem {
    if !StepOk(y, step) then y
    else
      match step
      case LApply(d, raw, cut) =>
        if Judge(y.mem, d) != Advanced then y
        else
          var z := y.(mem := DeltaLogs.Buffered(y.mem, d, raw), recorded := y.recorded + [Entry(d.tid, raw)]);
          if z.mem.sinceFlush < y.cfg.flushEvery then z else FlushStep(z, cut)
      case LFlush(cut) => FlushStep(y, cut)
      case LReopen => Crash(y, y.disk)
  }

  ghost function LogRun(y: LogSystem, steps: seq<LogStep>): LogSystem {
    if steps == [] then y else LogExec(LogRun(y, steps[..|steps| - 1]), steps[|steps| - 1])
  }

  /** A log opened on an empty directory. */
  ghost function FromZero(cfg: Config, tidOf: Bytes -> Tid): LogSystem {
    LogSystem(cfg, tidOf, FRESH_MEMORY, EMPTY_DISK, [])
  }

  /** A log that joins a store at a snapshot: the manifest is written before anything is recorded. */
  ghost function Joined(cfg: Config, tidOf: Bytes -> Tid, tid: Tid, types: seq<TypeRow>): LogSystem {
    var m := FRESH_MEMORY.(watermark := tid, applied := tid, genesisTid := tid, genesisTypes := types);
    LogSystem(cfg, tidOf, m, Disk(map[], Some(ManifestOf(m))), [])
  }

  // ---------------------------------------------------------------- invariant

  ghost predicate EntriesOk(y: LogSystem) {
    forall i :: 0 <= i < |y.recorded| ==>
      && y.recorded[i].tid == y.mem.genesisTid + 1 + i
      && y.tidOf(y.recorded[i].raw) == y.recorded[i].tid
      && Framable(y.recorded[i].raw)
  }

  ghost predicate CountsOk(y: LogSystem) {
    && y.mem.applied == y.mem.genesisTid + |y.recorded|
    && y.mem.genesisTid <= y.mem.watermark <= y.mem.applied
    && y.mem.buffer == y.recorded[y.mem.watermark - y.mem.genesisTid..]
    && y.cfg.flushEvery >= 1
  }

  ghost predicate ManifestOk(y: LogSystem) {
    match y.disk.manifest
    case None => y.mem.(applied := 0, buffer := [], sinceFlush := 0) == FRESH_MEMORY
    case Some(f) => f == ManifestOf(y.mem)
  }

  /** One segment's share of the recorded deltas. */
  ghost predicate SegmentHolds(seg: Segment, files: map<nat, Bytes>, entries: seq<Entry>, genesis: Tid) {
    && genesis < seg.firstTid <= seg.lastTid <= genesis + |entries|
    && seg.name in files
    && files[seg.name] == Blob(entries[seg.firstTid - genesis - 1..seg.lastTid - genesis])
    && seg.nbytes == |files[seg.name]|
  }

  ghost predicate Adjacent(segments: seq<Segment>, i: nat)
    requires i < |segments| - 1
  {
    segments[i + 1].firstTid == segments[i].lastTid + 1
  }

  /** The segments hold consecutive shares, from the first recorded delta to the durable watermark. */
  ghost predicate SegmentsHold(segments: seq<Segment>, files: map<nat, Bytes>, entries: seq<Entry>, genesis: Tid, upTo: Tid) {
    && (forall i {:trigger SegmentHolds(segments[i], files, entries, genesis)} :: 0 <= i < |segments| ==>
          SegmentHolds(segments[i], files, entries, genesis))
    && (forall i {:trigger Adjacent(segments, i)} :: 0 <= i < |segments| - 1 ==> Adjacent(segments, i))
    && (segments != [] ==> segments[0].firstTid == genesis + 1 && segments[|segments| - 1].lastTid == upTo)
    && (segments == [] ==> upTo == genesis)
  }

  ghost predicate NamesOk(m: Memory, files: map<nat, Bytes>) {
    && (forall i, j :: 0 <= i < j < |m.segments| ==> m.segments[i].name != m.segments[j].name)
    && (forall i :: 0 <= i < |m.segments| ==> m.segments[i].name < m.nextSegment)
    && files.Keys == Names(m.segments)
  }

  ghost predicate LogInv(y: LogSystem) {
    && EntriesOk(y) && CountsOk(y) && ManifestOk(y)
    && NamesOk(y.mem, y.disk.files)
    && SegmentsHold(y.mem.segments, y.disk.files, y.recorded, y.mem.genesisTid, y.mem.watermark)
  }

  // -------------------------------------------------------------------- flush

  lemma BlobAppend(xs: seq<Entry>, ys: seq<Entry>)
    ensures Blob(xs + ys) == Blob(xs) + Blob(ys)
  {
    assert RawsOf(xs + ys) == RawsOf(xs) + RawsOf(ys);
    FrameAllAppend(RawsOf(xs), RawsOf(ys));
  }

  /** Longer recordings do not disturb the shares already on disk. */
  lemma SharesSurviveAppend(segments: seq<Segment>, files: map<nat, Bytes>, entries: seq<Entry>, more: seq<Entry>, genesis: Tid, upTo: Tid)
    requires SegmentsHold(segments, files, entries, genesis, upTo)
    ensures SegmentsHold(segments, files, entries + more, genesis, upTo)
  {
    hide FrameAll;
    forall i | 0 <= i < |segments|
      ensures SegmentHolds(segments[i], files, entries + more, genesis)
    {
      var a, b := segments[i].firstTid - genesis - 1, segments[i].lastTid - genesis;
      assert SegmentHolds(segments[i], files, entries, genesis);
      assert (entries + more)[a..b] == entries[a..b];
    }
  }

  lemma BufferKeeps(y: LogSystem, d: Delta, raw: Bytes)
    requires LogInv(y) && Encodes(y.tidOf, d, raw) && Judge(y.mem, d) == Advanced
    ensures LogInv(y.(mem := DeltaLogs.Buffered(y.mem, d, raw), recorded := y.recorded + [Entry(d.tid, raw)]))
  {
    hide FrameAll;
    SharesSurviveAppend(y.mem.segments, y.disk.files, y.recorded, [Entry(d.tid, raw)], y.mem.genesisTid, y.mem.watermark);
  }

  lemma NextNameUnused(m: Memory, files: map<nat, Bytes>)
    requires NamesOk(m, files)
    ensures m.nextSegment !in files
  {
    assert forall s :: s in m.segments ==> s.name != m.nextSegment;
  }

  /** Rolling to a fresh segment, whose file does not exist, and sealing the last one keep the names in order. */
  lemma FlushNames(cfg: Config, m: Memory, s: Memory, files: map<nat, Bytes>, files': map<nat, Bytes>)
    requires NamesOk(m, files)
    requires var r := EnsureSegment(cfg, m);
      && s.nextSegment == r.nextSegment && |s.segments| == |r.segments|
      && (forall i :: 0 <= i < |r.segments| ==> s.segments[i].name == r.segments[i].name)
      && files'.Keys == files.Keys + {CurrentName(r)}
    ensures NamesOk(s, files')
  {
    var r := EnsureSegment(cfg, m);
    RolledNames(cfg, m);
    SameNames(s.segments, r.segments);
    hide EnsureSegment, Names;
    assert s.nextSegment == r.nextSegment;
  }

  lemma RolledNames(cfg: Config, m: Memory)
    requires (forall i :: 0 <= i < |m.segments| ==> m.segments[i].name < m.nextSegment)
    requires forall i, j :: 0 <= i < j < |m.segments| ==> m.segments[i].name != m.segments[j].name
    ensures var r := EnsureSegment(cfg, m);
      && Names(r.segments) == Names(m.segments) + {CurrentName(r)}
      && (forall i :: 0 <= i < |r.segments| ==> r.segments[i].name < r.nextSegment)
      && (forall i, j :: 0 <= i < j < |r.segments| ==> r.segments[i].name != r.segments[j].name)
  {
    var r := EnsureSegment(cfg, m);
    if r.segments != m.segments {
      assert Names(r.segments) == Names(m.segments) + {m.nextSegment} by {
        assert r.segments[|m.segments|] in r.segments;
      }
    } else {
      assert r.segments[|r.segments| - 1] in m.segments;
    }
  }

  lemma SameNames(xs: seq<Segment>, ys: seq<Segment>)
    requires |xs| == |ys| && forall i :: 0 <= i < |xs| ==> xs[i].name == ys[i].name
    ensures Names(xs) == Names(ys)
  {
    forall n
      ensures n in Names(xs) <==> n in Names(ys)
    {
      if n in Names(xs) {
        var s :| s in xs && s.name == n;
        var i :| 0 <= i < |xs| && xs[i] == s;
        assert ys[i] in ys;
      }
      if n in Names(ys) {
        var s :| s in ys && s.name == n;
        var i :| 0 <= i < |ys| && ys[i] == s;
        assert xs[i] in xs;
      }
    }
  }

  /** The share of the last segment after a flush: what it held, then the buffer. */
  lemma LastShare(seg: Segment, files: map<nat, Bytes>, entries: seq<Entry>, genesis: Tid, upTo: Tid)
    requires genesis <= upTo < genesis + |entries|
    requires (seg.firstTid == 0 && seg.nbytes == 0 && seg.name !in files)
             || (SegmentHolds(seg, files, entries, genesis) && seg.lastTid == upTo)
    ensures var buffer := entries[upTo - genesis..];
      var first := if seg.firstTid == 0 then upTo + 1 else seg.firstTid;
      SegmentHolds(Segment(seg.name, first, genesis + |entries|, seg.nbytes + |Blob(buffer)|),
                   Append(files, seg.name, Blob(buffer)), entries, genesis)
  {
    hide FrameAll, RawsOf;
    var w := upTo - genesis;
    var buffer := entries[w..];
    if seg.firstTid == 0 {
      assert [] + Blob(buffer) == Blob(buffer);
      assert entries[w..|entries|] == buffer;
    } else {
      var a := seg.firstTid - genesis - 1;
      assert entries[a..|entries|] == entries[a..w] + buffer;
      BlobAppend(entries[a..w], buffer);
    }
  }

  lemma FlushKeeps(y: LogSystem)
    requires LogInv(y)
    ensures LogInv(FlushStep(y, None))
  {
    hide FrameAll, Names, SegmentHolds, Adjacent;
    if y.mem.buffer != [] {
      var r := EnsureSegment(y.cfg, y.mem);
      var s := Sealed(r);
      var files := Append(y.disk.files, CurrentName(r), Blob(y.mem.buffer));
      FlushNames(y.cfg, y.mem, s, y.disk.files, files);
      FlushShares(y);
      BufferTids(y);
      assert FlushStep(y, None) == y.(mem := s, disk := Disk(files, Some(ManifestOf(s))));
    }
  }

  lemma FlushShares(y: LogSystem)
    requires LogInv(y) && y.mem.buffer != []
    ensures var r := EnsureSegment(y.cfg, y.mem);
      var files := Append(y.disk.files, CurrentName(r), Blob(y.mem.buffer));
      SegmentsHold(Sealed(r).segments, files, y.recorded, y.mem.genesisTid, y.mem.applied)
  {
    var r := EnsureSegment(y.cfg, y.mem);
    NextNameUnused(y.mem, y.disk.files);
    FlushTarget(y);
    BufferTids(y);
    SealShares(y.mem, r, y.disk.files, y.recorded);
  }

  lemma SealShares(m: Memory, r: Memory, files: map<nat, Bytes>, entries: seq<Entry>)
    requires SegmentsHold(m.segments, files, entries, m.genesisTid, m.watermark)
    requires m.genesisTid <= m.watermark < m.genesisTid + |entries| && m.buffer == entries[m.watermark - m.genesisTid..]
    requires m.buffer[0].tid == m.watermark + 1 && m.buffer[|m.buffer| - 1].tid == m.applied == m.genesisTid + |entries|
    requires r.segments != [] && r == m.(segments := r.segments, nextSegment := r.nextSegment)
    requires var last := |r.segments| - 1;
      && (r.segments == m.segments || r.segments[..last] == m.segments)
      && (r.segments == m.segments ==>
            SegmentHolds(r.segments[last], files, entries, m.genesisTid) && r.segments[last].lastTid == m.watermark)
      && (r.segments != m.segments ==> r.segments[last] == Segment(m.nextSegment, 0, 0, 0) && m.nextSegment !in files)
      && (forall i :: 0 <= i < last ==> r.segments[i].name != r.segments[last].name)
    ensures SegmentsHold(Sealed(r).segments, Append(files, CurrentName(r), Blob(m.buffer)), entries, m.genesisTid, m.applied)
  {
    hide FrameAll;
    var last := |r.segments| - 1;
    var files' := Append(files, CurrentName(r), Blob(m.buffer));
    LastShare(r.segments[last], files, entries, m.genesisTid, m.watermark);
    OtherShares(m.segments, r.segments, Sealed(r).segments, files, files', entries, m.genesisTid, m.watermark);
  }

  /** The segment the flush writes to is the last sealed one, or a fresh one whose name nobody has. */
  lemma FlushTarget(y: LogSystem)
    requires LogInv(y) && y.mem.buffer != []
    ensures var r := EnsureSegment(y.cfg, y.mem);
      var last := |r.segments| - 1;
      && (r.segments == y.mem.segments || r.segments[..last] == y.mem.segments)
      && (r.segments == y.mem.segments ==>
            SegmentHolds(r.segments[last], y.disk.files, y.recorded, y.mem.genesisTid) && r.segments[last].lastTid == y.mem.watermark)
      && (r.segments != y.mem.segments ==> r.segments[last] == Segment(y.mem.nextSegment, 0, 0, 0))
      && (forall i :: 0 <= i < last ==> r.segments[i].name != r.segments[last].name)
  {
    hide FrameAll;
    var r := EnsureSegment(y.cfg, y.mem);
    if r.segments == y.mem.segments {
      assert SegmentHolds(r.segments[|r.segments| - 1], y.disk.files, y.recorded, y.mem.genesisTid);
    }
  }

  lemma BufferTids(y: LogSystem)
    requires EntriesOk(y) && CountsOk(y) && y.mem.buffer != []
    ensures y.mem.buffer[0].tid == y.mem.watermark + 1
    ensures y.mem.buffer[|y.mem.buffer| - 1].tid == y.mem.applied == y.mem.genesisTid + |y.recorded|
  {
  }

  lemma OtherShares(before: seq<Segment>, rolled: seq<Segment>, after: seq<Segment>, files: map<nat, Bytes>,
                    files': map<nat, Bytes>, entries: seq<Entry>, genesis: Tid, upTo: Tid)
    requires SegmentsHold(before, files, entries, genesis, upTo)
    requires rolled != [] && |after| == |rolled| && (rolled == before || rolled[..|rolled| - 1] == before)
    requires rolled == before || rolled[|rolled| - 1].firstTid == 0
    requires var last := |rolled| - 1;
      && after[..last] == rolled[..last]
      && SegmentHolds(after[last], files', entries, genesis)
      && after[last].firstTid == (if rolled[last].firstTid == 0 then upTo + 1 else rolled[last].firstTid)
      && (forall i :: 0 <= i < last ==> rolled[i].name != after[last].name)
      && (forall n :: n in files && n != after[last].name ==> n in files' && files'[n] == files[n])
    ensures SegmentsHold(after, files', entries, genesis, after[|after| - 1].lastTid)
  {
    hide FrameAll;
    var last := |rolled| - 1;
    forall i | 0 <= i < |after|
      ensures SegmentHolds(after[i], files', entries, genesis)
    {
      if i < last {
        assert after[i] == after[..last][i] == rolled[..last][i] == before[i];
        assert SegmentHolds(before[i], files, entries, genesis);
      }
    }
    forall i | 0 <= i < |after| - 1
      ensures Adjacent(after, i)
    {
      assert after[i] == after[..last][i] == rolled[..last][i] == before[i];
      if i + 1 < last {
        assert after[i + 1] == after[..last][i + 1] == rolled[..last][i + 1] == before[i + 1];
        assert Adjacent(before, i);
      } else if rolled == before {
        assert Adjacent(before, i);
        assert SegmentHolds(before[last], files, entries, genesis);
      }
    }
    if last > 0 {
      assert after[0] == after[..last][0] == rolled[..last][0] == before[0];
    } else if rolled == before {
      assert SegmentHolds(before[last], files, entries, genesis);
    }
  }

  // -------------------------------------------------------------------- crash

  /** The files may hold more than the manifest says: every named file starts with its committed bytes. */
  ghost predicate DebrisOnly(clean: map<nat, Bytes>, dirty: map<nat, Bytes>) {
    clean.Keys <= dirty.Keys && forall n :: n in clean ==> |clean[n]| <= |dirty[n]| && dirty[n][..|clean[n]|] == clean[n]
  }

  lemma {:induction false} CutBackUndoes(clean: map<nat, Bytes>, dirty: map<nat, Bytes>, segments: seq<Segment>)
    requires DebrisOnly(clean, dirty)
    requires forall i :: 0 <= i < |segments| ==> segments[i].name in clean && segments[i].nbytes == |clean[segments[i].name]|
    ensures CutBack(dirty, segments).Keys == dirty.Keys
    ensures forall n :: n in clean ==>
              CutBack(dirty, segments)[n] == if n in Names(segments) then clean[n] else dirty[n]
  {
    if segments != [] {
      var front, seg := segments[..|segments| - 1], segments[|segments| - 1];
      assert segments == front + [seg];
      forall i | 0 <= i < |front|
        ensures front[i].name in clean && front[i].nbytes == |clean[front[i].name]|
      {
        assert front[i] == segments[i];
      }
      CutBackUndoes(clean, dirty, front);
      assert Names(segments) == Names(front) + {seg.name};
      assert seg == segments[|segments| - 1];
    }
  }

  lemma ReopenRestores(y: LogSystem, disk: Disk)
    requires LogInv(y) && disk.manifest == y.disk.manifest && DebrisOnly(y.disk.files, disk.files)
    ensures Reopened(disk) == (y.mem.(applied := y.mem.watermark, buffer := [], sinceFlush := 0), y.disk)
  {
    var m := Loaded(disk);
    assert m.segments == y.mem.segments;
    forall i | 0 <= i < |m.segments|
      ensures m.segments[i].name in y.disk.files && m.segments[i].nbytes == |y.disk.files[m.segments[i].name]|
    {
      assert SegmentHolds(y.mem.segments[i], y.disk.files, y.recorded, y.mem.genesisTid);
    }
    CutBackUndoes(y.disk.files, disk.files, m.segments);
    assert KeepNamed(CutBack(disk.files, m.segments), Names(m.segments)) == y.disk.files;
  }

  lemma CrashKeeps(y: LogSystem, disk: Disk)
    requires LogInv(y) && disk.manifest == y.disk.manifest && DebrisOnly(y.disk.files, disk.files)
    ensures LogInv(Crash(y, disk)) && Crash(y, disk).recorded == Durable(y)
    ensures Crash(y, disk).disk == y.disk && Crash(y, disk).mem.watermark == Crash(y, disk).mem.applied == y.mem.watermark
  {
    hide FrameAll, CutBack, KeepNamed, SegmentHolds, SegmentsHold, Adjacent, Reopened;
    ReopenRestores(y, disk);
    var z := Crash(y, disk);
    assert z == y.(mem := y.mem.(applied := y.mem.watermark, buffer := [], sinceFlush := 0), recorded := Durable(y));
    DurableShares(y.mem.segments, y.disk.files, y.recorded, y.mem.genesisTid, y.mem.watermark);
  }

  /** The shares on disk only need the durable part of the recording. */
  lemma DurableShares(segments: seq<Segment>, files: map<nat, Bytes>, entries: seq<Entry>, genesis: Tid, upTo: Tid)
    requires SegmentsHold(segments, files, entries, genesis, upTo) && genesis <= upTo <= genesis + |entries|
    ensures SegmentsHold(segments, files, entries[..upTo - genesis], genesis, upTo)
  {
    hide FrameAll;
    forall i | 0 <= i < |segments|
      ensures SegmentHolds(segments[i], files, entries[..upTo - genesis], genesis)
    {
      assert SegmentHolds(segments[i], files, entries, genesis);
      LastIsDurable(segments, files, entries, genesis, upTo, i);
      var a, b := segments[i].firstTid - genesis - 1, segments[i].lastTid - genesis;
      assert entries[..upTo - genesis][a..b] == entries[a..b];
    }
  }

  lemma LastIsDurable(segments: seq<Segment>, files: map<nat, Bytes>, entries: seq<Entry>, genesis: Tid, upTo: Tid, i: nat)
    requires SegmentsHold(segments, files, entries, genesis, upTo) && i < |segments|
    ensures segments[i].lastTid <= upTo
    decreases |segments| - i
  {
    hide FrameAll;
    if i + 1 < |segments| {
      LastIsDurable(segments, files, entries, genesis, upTo, i + 1);
      assert SegmentHolds(segments[i + 1], files, entries, genesis);
      assert Adjacent(segments, i);
    }
  }

  lemma TornIsDebris(y: LogSystem, n: nat)
    requires LogInv(y)
    ensures DebrisOnly(y.disk.files, Torn(y.cfg, y.mem, y.disk, n).files)
    ensures Torn(y.cfg, y.mem, y.disk, n).manifest == y.disk.manifest
  {
  }

  /** A reopening that died too: the first `k` segments cut back, and some of the unnamed files removed. */
  ghost function Halfway(disk: Disk, k: nat, gone: set<nat>): Disk
    requires k <= |Loaded(disk).segments|
  {
    var segments := Loaded(disk).segments;
    disk.(files := CutBack(disk.files, segments[..k]) - (gone - Names(segments)))
  }

  lemma HalfwayIsDebris(y: LogSystem, disk: Disk, k: nat, gone: set<nat>)
    requires LogInv(y) && disk.manifest == y.disk.manifest && DebrisOnly(y.disk.files, disk.files)
    requires k <= |Loaded(disk).segments|
    ensures Halfway(disk, k, gone).manifest == y.disk.manifest && DebrisOnly(y.disk.files, Halfway(disk, k, gone).files)
  {
    var segments := y.mem.segments;
    assert Loaded(disk).segments == segments;
    forall i | 0 <= i < k
      ensures segments[..k][i].name in y.disk.files && segments[..k][i].nbytes == |y.disk.files[segments[..k][i].name]|
    {
      assert SegmentHolds(segments[i], y.disk.files, y.recorded, y.mem.genesisTid);
    }
    CutBackUndoes(y.disk.files, disk.files, segments[..k]);
  }

  // --------------------------------------------------------------------- runs

  lemma FlushStepKeeps(y: LogSystem, cut: Option<nat>)
    requires LogInv(y)
    ensures LogInv(FlushStep(y, cut))
  {
    if cut.Some? && y.mem.buffer != [] {
      TornIsDebris(y, cut.value);
      CrashKeeps(y, Torn(y.cfg, y.mem, y.disk, cut.value));
    } else {
      FlushKeeps(y);
    }
  }

  lemma LogStepKeeps(y: LogSystem, step: LogStep)
    requires LogInv(y)
    ensures LogInv(LogExec(y, step))
  {
    if StepOk(y, step) {
      match step
      case LApply(d, raw, cut) =>
        if Judge(y.mem, d) == Advanced {
          BufferKeeps(y, d, raw);
          FlushStepKeeps(y.(mem := DeltaLogs.Buffered(y.mem, d, raw), recorded := y.recorded + [Entry(d.tid, raw)]), cut);
        }
      case LFlush(cut) => FlushStepKeeps(y, cut);
      case LReopen => CrashKeeps(y, y.disk);
    }
  }

  lemma {:induction false} LogRunKeeps(y: LogSystem, steps: seq<LogStep>)
    requires LogInv(y)
    ensures LogInv(LogRun(y, steps))
  {
    if steps != [] {
      LogRunKeeps(y, steps[..|steps| - 1]);
      LogStepKeeps(LogRun(y, steps[..|steps| - 1]), steps[|steps| - 1]);
    }
  }

  lemma StartsOk(cfg: Config, tidOf: Bytes -> Tid, tid: Tid, types: seq<TypeRow>)
    requires cfg.flushEvery >= 1
    ensures LogInv(FromZero(cfg, tidOf)) && LogInv(Joined(cfg, tidOf, tid, types))
  {
  }

  // ------------------------------------------------------------------- replay

  /** What the recorded deltas past `after` look like on the wire. */
  ghost function RecordedAfter(recorded: seq<Entry>, genesis: Tid, after: Tid): seq<Bytes> {
    if after <= genesis then RawsOf(recorded)
    else if after - genesis <= |recorded| then RawsOf(recorded[after - genesis..])
    else []
  }

  /** Reading a file of whole frames from a frame boundary yields the frames from there on. */
  lemma {:induction false} SegmentFramesReadBack(raws: seq<Bytes>, n: nat)
    requires n <= |raws| && forall i :: 0 <= i < |raws| ==> Framable(raws[i])
    ensures var file, offset := FrameAll(raws), |FrameAll(raws[..n])|;
      SegmentFrames(file, offset, |file| - offset) == raws[n..]
    decreases |raws| - n
  {
    hide FrameAll, Framable;
    if n == |raws| {
      assert raws[..n] == raws && raws[n..] == [];
    } else {
      CutAt(raws, n);
      SegmentFramesReadBack(raws, n + 1);
      assert raws[n..] == [raws[n]] + raws[n + 1..];
      RoomForHeader(raws, n);
    }
  }

  lemma RoomForHeader(raws: seq<Bytes>, n: nat)
    requires n < |raws| && Framable(raws[n])
    ensures |FrameAll(raws)| - |FrameAll(raws[..n])| >= HEADER
  {
    CutAt(raws, n);
  }

  /** Filtering consecutive TIDs by a cursor drops a prefix. */
  lemma {:induction false} AfterIsSuffix(entries: seq<Entry>, tidOf: Bytes -> Tid, base: Tid, after: Tid)
    requires forall i :: 0 <= i < |entries| ==> entries[i].tid == base + 1 + i && tidOf(entries[i].raw) == entries[i].tid
    ensures After(RawsOf(entries), tidOf, after) == RecordedAfter(entries, base, after)
    ensures BufferAfter(entries, after) == RecordedAfter(entries, base, after)
  {
    if entries != [] {
      var n := |entries| - 1;
      var front, e := entries[..n], entries[n];
      AfterIsSuffix(front, tidOf, base, after);
      assert RawsOf(entries)[..n] == RawsOf(front) && RawsOf(entries)[n] == e.raw;
      if after <= base {
        assert RawsOf(entries) == RawsOf(front) + [e.raw];
      } else if after - base <= n {
        assert RawsOf(entries[after - base..]) == RawsOf(front[after - base..]) + [e.raw];
      } else if after - base == n + 1 {
        assert RawsOf(entries[after - base..]) == [];
      }
    }
  }

  lemma RecordedAfterAppend(xs: seq<Entry>, ys: seq<Entry>, base: Tid, after: Tid)
    ensures RecordedAfter(xs + ys, base, after)
         == RecordedAfter(xs, base, after) + RecordedAfter(ys, base + |xs|, after)
  {
    if after <= base {
      assert RawsOf(xs + ys) == RawsOf(xs) + RawsOf(ys);
    } else if after - base <= |xs| {
      assert (xs + ys)[after - base..] == xs[after - base..] + ys;
      assert RawsOf((xs + ys)[after - base..]) == RawsOf(xs[after - base..]) + RawsOf(ys);
    } else if after - base <= |xs| + |ys| {
      assert (xs + ys)[after - base..] == ys[after - base - |xs|..];
    }
  }

  ghost predicate Consecutive(entries: seq<Entry>, tidOf: Bytes -> Tid, base: Tid) {
    forall i :: 0 <= i < |entries| ==>
      entries[i].tid == base + 1 + i && tidOf(entries[i].raw) == entries[i].tid && Framable(entries[i].raw)
  }

  lemma {:induction false} SegmentsReplay(segments: seq<Segment>, files: map<nat, Bytes>, entries: seq<Entry>,
                                          tidOf: Bytes -> Tid, genesis: Tid, upTo: Tid, after: Tid)
    requires SegmentsHold(segments, files, entries, genesis, upTo) && Consecutive(entries, tidOf, genesis)
    requires genesis <= upTo <= genesis + |entries|
    ensures ReplaySegments(segments, files, tidOf, after) == RecordedAfter(entries[..upTo - genesis], genesis, after)
  {
    hide FrameAll, SegmentFrames, After;
    if segments == [] {
      assert entries[..0] == [];
    } else {
      var k := |segments| - 1;
      var seg := segments[k];
      assert SegmentHolds(seg, files, entries, genesis);
      FrontHolds(segments, files, entries, genesis, upTo);
      SegmentsReplay(segments[..k], files, entries, tidOf, genesis, seg.firstTid - 1, after);
      LastSegmentReplays(segments, files, entries, tidOf, genesis, after);
    }
  }

  lemma LastSegmentReplays(segments: seq<Segment>, files: map<nat, Bytes>, entries: seq<Entry>,
                           tidOf: Bytes -> Tid, genesis: Tid, after: Tid)
    requires segments != [] && Consecutive(entries, tidOf, genesis)
    requires SegmentHolds(segments[|segments| - 1], files, entries, genesis)
    requires var seg := segments[|segments| - 1];
      ReplaySegments(segments[..|segments| - 1], files, tidOf, after)
      == RecordedAfter(entries[..seg.firstTid - 1 - genesis], genesis, after)
    ensures ReplaySegments(segments, files, tidOf, after)
         == RecordedAfter(entries[..segments[|segments| - 1].lastTid - genesis], genesis, after)
  {
    hide FrameAll, SegmentFrames, After, RecordedAfter;
    var seg := segments[|segments| - 1];
    var a, b := seg.firstTid - genesis - 1, seg.lastTid - genesis;
    assert entries[..b] == entries[..a] + entries[a..b];
    RecordedAfterAppend(entries[..a], entries[a..b], genesis, after);
    OneSegmentReplays(seg, files, entries, tidOf, genesis, after);
    if seg.lastTid <= after {
      NothingPastTheEnd(entries[a..b], genesis + a, after);
    }
  }

  lemma FrontHolds(segments: seq<Segment>, files: map<nat, Bytes>, entries: seq<Entry>, genesis: Tid, upTo: Tid)
    requires SegmentsHold(segments, files, entries, genesis, upTo) && segments != []
    ensures var k := |segments| - 1;
      segments[k].firstTid > genesis && SegmentsHold(segments[..k], files, entries, genesis, segments[k].firstTid - 1)
  {
    hide FrameAll;
    var k := |segments| - 1;
    var front := segments[..k];
    assert SegmentHolds(segments[k], files, entries, genesis);
    forall i | 0 <= i < k
      ensures SegmentHolds(front[i], files, entries, genesis)
    {
      assert SegmentHolds(segments[i], files, entries, genesis);
    }
    forall i | 0 <= i < k - 1
      ensures Adjacent(front, i)
    {
      assert Adjacent(segments, i);
    }
    if k > 0 {
      assert Adjacent(segments, k - 1);
    }
  }

  lemma NothingPastTheEnd(entries: seq<Entry>, base: Tid, after: Tid)
    requires after >= base + |entries|
    ensures RecordedAfter(entries, base, after) == []
  {
  }

  /** A segment that holds its share yields exactly that share, filtered by the cursor. */
  lemma OneSegmentReplays(seg: Segment, files: map<nat, Bytes>, entries: seq<Entry>, tidOf: Bytes -> Tid, genesis: Tid, after: Tid)
    requires SegmentHolds(seg, files, entries, genesis) && Consecutive(entries, tidOf, genesis)
    ensures var a, b := seg.firstTid - genesis - 1, seg.lastTid - genesis;
      After(SegmentFrames(Content(files, seg.name), 0, seg.nbytes), tidOf, after)
      == RecordedAfter(entries[a..b], genesis + a, after)
  {
    hide FrameAll, SegmentFrames, After, RecordedAfter;
    var a, b := seg.firstTid - genesis - 1, seg.lastTid - genesis;
    SubConsecutive(entries, tidOf, genesis, a, b);
    ShareReplays(entries[a..b], tidOf, genesis + a, after);
  }

  lemma SubConsecutive(entries: seq<Entry>, tidOf: Bytes -> Tid, base: Tid, a: nat, b: nat)
    requires Consecutive(entries, tidOf, base) && a <= b <= |entries|
    ensures Consecutive(entries[a..b], tidOf, base + a)
  {
    var share := entries[a..b];
    forall i | 0 <= i < |share|
      ensures share[i].tid == base + a + 1 + i && tidOf(share[i].raw) == share[i].tid && Framable(share[i].raw)
    {
      assert share[i] == entries[a + i];
    }
  }

  lemma ShareReplays(share: seq<Entry>, tidOf: Bytes -> Tid, base: Tid, after: Tid)
    requires Consecutive(share, tidOf, base)
    ensures After(SegmentFrames(Blob(share), 0, |Blob(share)|), tidOf, after) == RecordedAfter(share, base, after)
  {
    ShareReadsBack(share);
    AfterIsSuffix(share, tidOf, base, after);
  }

  lemma ShareReadsBack(share: seq<Entry>)
    requires forall i :: 0 <= i < |share| ==> Framable(share[i].raw)
    ensures SegmentFrames(Blob(share), 0, |Blob(share)|) == RawsOf(share)
  {
    var raws := RawsOf(share);
    SegmentFramesReadBack(raws, 0);
    assert raws[..0] == [] && raws[0..] == raws;
  }

  /** Replay is exactly what was recorded past the cursor, in order and byte for byte. */
  lemma ReplayIsRecorded(y: LogSystem, after: Tid)
    requires LogInv(y)
    ensures Replay(y.mem, y.disk.files, y.tidOf, after) == RecordedAfter(y.recorded, y.mem.genesisTid, after)
  {
    hide FrameAll, SegmentFrames, After, RecordedAfter, BufferAfter, ReplaySegments;
    var g, w := y.mem.genesisTid, y.mem.watermark - y.mem.genesisTid;
    SegmentsReplay(y.mem.segments, y.disk.files, y.recorded, y.tidOf, g, y.mem.watermark, after);
    SubConsecutive(y.recorded, y.tidOf, g, w, |y.recorded|);
    assert y.recorded[w..|y.recorded|] == y.mem.buffer;
    AfterIsSuffix(y.mem.buffer, y.tidOf, y.mem.watermark, after);
    assert y.recorded == y.recorded[..w] + y.mem.buffer;
    RecordedAfterAppend(y.recorded[..w], y.mem.buffer, g, after);
  }

  /** In every run from zero or from a join, replay yields exactly the recorded deltas, and every
      recorded delta's TID is its place in the stream. */
  lemma LogReplaysWhatItRecorded(cfg: Config, tidOf: Bytes -> Tid, tid: Tid, types: seq<TypeRow>, steps: seq<LogStep>, after: Tid)
    requires cfg.flushEvery >= 1
    ensures forall start :: start in {FromZero(cfg, tidOf), Joined(cfg, tidOf, tid, types)} ==>
      var y := LogRun(start, steps);
      && Replay(y.mem, y.disk.files, tidOf, after) == RecordedAfter(y.recorded, y.mem.genesisTid, after)
      && forall i :: 0 <= i < |y.recorded| ==> y.recorded[i].tid == y.mem.genesisTid + 1 + i
  {
    StartsOk(cfg, tidOf, tid, types);
    forall start | start in {FromZero(cfg, tidOf), Joined(cfg, tidOf, tid, types)}
      ensures LogInv(LogRun(start, steps)) && LogRun(start, steps).tidOf == tidOf
      ensures var y := LogRun(start, steps);
        Replay(y.mem, y.disk.files, tidOf, after) == RecordedAfter(y.recorded, y.mem.genesisTid, after)
    {
      LogRunKeeps(start, steps);
      TidOfIsFixed(start, steps);
      ReplayIsRecorded(LogRun(start, steps), after);
    }
  }

  lemma {:induction false} TidOfIsFixed(y: LogSystem, steps: seq<LogStep>)
    ensures LogRun(y, steps).tidOf == y.tidOf && LogRun(y, steps).cfg == y.cfg
  {
    if steps != [] {
      TidOfIsFixed(y, steps[..|steps| - 1]);
    }
  }

  /** Crash safety: kill the process anywhere, also `n` bytes into an append, and once more inside the
      reopening. The log then replays exactly the deltas recorded up to the durable watermark, and its
      files hold nothing else. */
  lemma CrashLosesOnlyTheBuffer(cfg: Config, tidOf: Bytes -> Tid, steps: seq<LogStep>, n: nat, k: nat, gone: set<nat>, after: Tid)
    requires cfg.flushEvery >= 1
    ensures var y := LogRun(FromZero(cfg, tidOf), steps);
      forall disk :: disk in {y.disk, Torn(cfg, y.mem, y.disk, n)} ==>
           Restores(y, disk, after) && (k <= |Loaded(disk).segments| ==> Restores(y, Halfway(disk, k, gone), after))
  {
    hide LogInv, DebrisOnly, Restores, Halfway, Torn, Loaded, LogRun, FromZero, Joined;
    StartsOk(cfg, tidOf, 0, []);
    LogRunKeeps(FromZero(cfg, tidOf), steps);
    TidOfIsFixed(FromZero(cfg, tidOf), steps);
    var y := LogRun(FromZero(cfg, tidOf), steps);
    assert y.cfg == cfg && y.tidOf == tidOf by {
      StartsAt(cfg, tidOf);
    }
    TornIsDebris(y, n);
    CleanIsDebris(y.disk.files);
    forall disk | disk in {y.disk, Torn(cfg, y.mem, y.disk, n)}
      ensures Restores(y, disk, after)
      ensures k <= |Loaded(disk).segments| ==> Restores(y, Halfway(disk, k, gone), after)
    {
      DebrisRestores(y, disk, after);
      if k <= |Loaded(disk).segments| {
        HalfwayIsDebris(y, disk, k, gone);
        DebrisRestores(y, Halfway(disk, k, gone), after);
      }
    }
  }

  lemma CleanIsDebris(files: map<nat, Bytes>)
    ensures DebrisOnly(files, files)
  {
  }

  lemma StartsAt(cfg: Config, tidOf: Bytes -> Tid)
    ensures FromZero(cfg, tidOf).cfg == cfg && FromZero(cfg, tidOf).tidOf == tidOf
  {
  }

  /** Reopening this directory gives back the durable log: its watermark, its files, its recorded deltas. */
  ghost predicate Restores(y: LogSystem, disk: Disk, after: Tid) {
    var (m, d) := Reopened(disk);
    && y.mem.genesisTid <= y.mem.watermark <= y.mem.genesisTid + |y.recorded|
    && m.watermark == m.applied == y.mem.watermark && m.genesisTid == y.mem.genesisTid
    && d == y.disk
    && Replay(m, d.files, y.tidOf, after) == RecordedAfter(Durable(y), y.mem.genesisTid, after)
  }

  lemma DebrisRestores(y: LogSystem, disk: Disk, after: Tid)
    requires LogInv(y) && disk.manifest == y.disk.manifest && DebrisOnly(y.disk.files, disk.files)
    ensures Restores(y, disk, after)
  {
    assert y.mem.genesisTid <= y.mem.watermark <= y.mem.genesisTid + |y.recorded|;
    hide LogInv, DebrisOnly, Replay, RecordedAfter, Reopened;
    ReopenRestores(y, disk);
    CrashKeeps(y, disk);
    ReplayIsRecorded(Crash(y, disk), after);
  }
}
