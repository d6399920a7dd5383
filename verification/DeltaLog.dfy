/**
 The durable delta log: length-prefixed frames in append-only segments, named by an atomic
 manifest. The functions say what each operation does to memory and disk; the class below them
 does it step by step, with a crash allowed inside the append; the runs interleave everything.
 */
module DeltaLogs {
  import opened Wire
  import opened Frames

  datatype Segment = Segment(name: nat, firstTid: Tid, lastTid: Tid, nbytes: nat)
  datatype Manifest = Manifest(watermark: Tid, genesisTid: Tid, genesisTypes: seq<TypeRow>,
                               nextSegment: nat, segments: seq<Segment>)
  /** `files` maps a segment number to the bytes of its file. */
  datatype Disk = Disk(files: map<nat, Bytes>, manifest: Option<Manifest>)
  datatype Entry = Entry(tid: Tid, raw: Bytes)
  datatype Memory = Memory(segments: seq<Segment>, nextSegment: nat, watermark: Tid, applied: Tid,
                           genesisTid: Tid, genesisTypes: seq<TypeRow>, buffer: seq<Entry>, sinceFlush: nat)
  datatype Config = Config(flushEvery: nat, maxSegmentBytes: nat)

  const FRESH_MEMORY := Memory([], 1, 0, 0, 0, [], [], 0)
  const EMPTY_DISK := Disk(map[], None)

  function RawsOf(entries: seq<Entry>): seq<Bytes> {
    seq(|entries|, i requires 0 <= i < |entries| => entries[i].raw)
  }

  function ManifestOf(m: Memory): Manifest {
    Manifest(m.watermark, m.genesisTid, m.genesisTypes, m.nextSegment, m.segments)
  }

  // ------------------------------------------------------------------- flush

  /** The current segment, or a fresh one when there is none or the current one is full. */
  function EnsureSegment(cfg: Config, m: Memory): (r: Memory)
    ensures r.segments != []
  {
    if m.segments != [] && m.segments[|m.segments| - 1].nbytes < cfg.maxSegmentBytes then m
    else m.(segments := m.segments + [Segment(m.nextSegment, 0, 0, 0)], nextSegment := m.nextSegment + 1)
  }

  function Content(files: map<nat, Bytes>, name: nat): Bytes {
    if name in files then files[name] else []
  }

  /** Append mode creates the file and writes at its end. */
  function Append(files: map<nat, Bytes>, name: nat, bytes: Bytes): map<nat, Bytes> {
    files[name := Content(files, name) + bytes]
  }

  function CurrentName(m: Memory): nat
    requires m.segments != []
  {
    m.segments[|m.segments| - 1].name
  }

  function Blob(buffer: seq<Entry>): Bytes {
    FrameAll(RawsOf(buffer))
  }

  /** The memory once the buffered frames are in the current segment. */
  function Sealed(m: Memory): Memory
    requires m.segments != [] && m.buffer != []
  {
    var last := |m.segments| - 1;
    var seg := m.segments[last];
    var first := if seg.firstTid == 0 then m.buffer[0].tid else seg.firstTid;
    m.(segments := m.segments[last := Segment(seg.name, first, m.buffer[|m.buffer| - 1].tid, seg.nbytes + |Blob(m.buffer)|)],
       watermark := m.applied, buffer := [], sinceFlush := 0)
  }

  function Flushed(cfg: Config, m: Memory, disk: Disk): (Memory, Disk) {
    if m.buffer == [] then (m, disk)
    else
      var r := EnsureSegment(cfg, m);
      var s := Sealed(r);
      (s, Disk(Append(disk.files, CurrentName(r), Blob(m.buffer)), Some(ManifestOf(s))))
  }

  /** The disk when the process dies after `n` bytes of the append, before the manifest is renamed. */
  function Torn(cfg: Config, m: Memory, disk: Disk, n: nat): Disk {
    if m.buffer == [] then disk
    else
      var blob := Blob(m.buffer);
      disk.(files := Append(disk.files, CurrentName(EnsureSegment(cfg, m)), blob[..if n <= |blob| then n else |blob|]))
  }

  // ------------------------------------------------------------------- apply

  predicate KnownOps(d: Delta) {
    forall i :: 0 <= i < |d.ops| ==> !d.ops[i].kind.Unknown?
  }

  function Judge(m: Memory, d: Delta): Verdict {
    if !HeaderOk(d) || !d.complete then FormatError
    else if d.tid <= m.applied then Skipped
    else if d.tid != m.applied + 1 then GapError
    else if !KnownOps(d) then FormatError
    else Advanced
  }

  function Buffered(m: Memory, d: Delta, raw: Bytes): Memory {
    m.(buffer := m.buffer + [Entry(d.tid, raw)], applied := d.tid, sinceFlush := m.sinceFlush + 1)
  }

  // ------------------------------------------------------------------ reopen

  function Truncate(b: Bytes, n: nat): Bytes {
    if n <= |b| then b[..n] else b + seq(n - |b|, _ => 0 as Byte)
  }

  function Names(segments: seq<Segment>): set<nat> {
    set s | s in segments :: s.name
  }

  /** Cuts every named segment back to its committed length. */
  function CutBack(files: map<nat, Bytes>, segments: seq<Segment>): map<nat, Bytes> {
    if segments == [] then files
    else
      var cut, seg := CutBack(files, segments[..|segments| - 1]), segments[|segments| - 1];
      if seg.name in cut then cut[seg.name := Truncate(cut[seg.name], seg.nbytes)] else cut
  }

  function KeepNamed(files: map<nat, Bytes>, names: set<nat>): map<nat, Bytes> {
    map n | n in files && n in names :: files[n]
  }

  function Loaded(disk: Disk): Memory {
    match disk.manifest
    case None => FRESH_MEMORY
    case Some(f) => Memory(f.segments, f.nextSegment, f.watermark, f.watermark, f.genesisTid, f.genesisTypes, [], 0)
  }

  function Reopened(disk: Disk): (Memory, Disk) {
    var m := Loaded(disk);
    (m, disk.(files := KeepNamed(CutBack(disk.files, m.segments), Names(m.segments))))
  }

  // ------------------------------------------------------------------ replay

  /** The frames of a segment file, reading no further than its committed length. */
  function SegmentFrames(file: Bytes, offset: nat, remaining: int): seq<Bytes>
    decreases if remaining < 0 then 0 else remaining
  {
    if remaining < HEADER then []
    else
      match CutFrame(file, offset)
      case Whole(raw, next) => [raw] + SegmentFrames(file, next, remaining - (next - offset))
      case _ => []
  }

  function After(raws: seq<Bytes>, tidOf: Bytes -> Tid, after: Tid): seq<Bytes> {
    if raws == [] then []
    else
      var rest, raw := After(raws[..|raws| - 1], tidOf, after), raws[|raws| - 1];
      if tidOf(raw) > after then rest + [raw] else rest
  }

  function ReplaySegments(segments: seq<Segment>, files: map<nat, Bytes>, tidOf: Bytes -> Tid, after: Tid): seq<Bytes> {
    if segments == [] then []
    else
      var rest, seg := ReplaySegments(segments[..|segments| - 1], files, tidOf, after), segments[|segments| - 1];
      if seg.lastTid <= after then rest
      else rest + After(SegmentFrames(Content(files, seg.name), 0, seg.nbytes), tidOf, after)
  }

  function BufferAfter(buffer: seq<Entry>, after: Tid): seq<Bytes> {
    if buffer == [] then []
    else
      var rest, e := BufferAfter(buffer[..|buffer| - 1], after), buffer[|buffer| - 1];
      if e.tid > after then rest + [e.raw] else rest
  }

  function Replay(m: Memory, files: map<nat, Bytes>, tidOf: Bytes -> Tid, after: Tid): seq<Bytes> {
    ReplaySegments(m.segments, files, tidOf, after) + BufferAfter(m.buffer, after)
  }

  // -------------------------------------------------------------- the objects

  /** The log directory, which outlives the processes that open it. */
  class Directory {
    var files: map<nat, Bytes>
    var manifest: Option<Manifest>

    ghost function View(): Disk
      reads this
    {
      Disk(files, manifest)
    }

    constructor ()
      ensures View() == EMPTY_DISK
    {
      files, manifest := map[], None;
    }

    method AppendTo(name: nat, bytes: Bytes)
      modifies this`files
      ensures files == Append(old(files), name, bytes)
    {
      var content := Content(files, name);
      files := files[name := content + bytes];
    }
  }

  class DeltaLog {
    const dir: Directory
    const cfg: Config
    const tidOf: Bytes -> Tid
    var segments: seq<Segment>
    var nextSegment: nat
    var watermark: Tid
    var applied: Tid
    var genesisTid: Tid
    var genesisTypes: seq<TypeRow>
    var buffer: seq<Entry>
    var sinceFlush: nat

    ghost function View(): Memory
      reads this
    {
      Memory(segments, nextSegment, watermark, applied, genesisTid, genesisTypes, buffer, sinceFlush)
    }

    /** Opens the directory: loads the manifest, then reconciles the files with it. */
    constructor (d: Directory, c: Config, decodeTid: Bytes -> Tid)
      modifies d
      ensures dir == d && cfg == c && tidOf == decodeTid
      ensures (View(), d.View()) == Reopened(old(d.View()))
    {
      dir, cfg, tidOf := d, c, decodeTid;
      segments, nextSegment, watermark, applied := [], 1, 0, 0;
      genesisTid, genesisTypes, buffer, sinceFlush := 0, [], [], 0;
      new;
      if d.manifest.Some? {
        var f := d.manifest.value;
        segments, nextSegment, watermark, applied := f.segments, f.nextSegment, f.watermark, f.watermark;
        genesisTid, genesisTypes := f.genesisTid, f.genesisTypes;
      }
      CutSegments();
      DropUnnamed();
    }

    method CutSegments()
      modifies dir`files
      ensures dir.files == CutBack(old(dir.files), segments)
    {
      for i := 0 to |segments|
        invariant dir.files == CutBack(old(dir.files), segments[..i])
      {
        assert segments[..i + 1][..i] == segments[..i];
        var seg := segments[i];
        if seg.name in dir.files {
          if |dir.files[seg.name]| != seg.nbytes {
            var cut := Truncate(dir.files[seg.name], seg.nbytes);
            dir.files := dir.files[seg.name := cut];
          } else {
            assert Truncate(dir.files[seg.name], seg.nbytes) == dir.files[seg.name];
          }
        }
      }
      assert segments[..|segments|] == segments;
    }

    method DropUnnamed()
      modifies dir`files
      ensures dir.files == KeepNamed(old(dir.files), Names(segments))
    {
      var unseen := dir.files.Keys;
      while unseen != {}
        invariant unseen <= dir.files.Keys <= old(dir.files).Keys
        invariant forall n :: n in old(dir.files) ==> (n in dir.files <==> n in unseen || n in Names(segments))
        invariant forall n :: n in dir.files ==> dir.files[n] == old(dir.files)[n]
        decreases unseen
      {
        var n :| n in unseen;
        unseen := unseen - {n};
        if n !in Names(segments) {
          dir.files := dir.files - {n};
        }
      }
    }

    /** Records one delta, `raw` being its encoding. A crash may hit the flush this triggers. */
    method Apply(d: Delta, raw: Bytes, cut: Option<nat>) returns (verdict: Verdict, crashed: bool)
      modifies this, dir
      ensures verdict == Judge(old(View()), d)
      ensures var m := Buffered(old(View()), d, raw);
        if verdict != Advanced then !crashed && View() == old(View()) && dir.View() == old(dir.View())
        else if m.sinceFlush < cfg.flushEvery then !crashed && View() == m && dir.View() == old(dir.View())
        else
          && crashed == cut.Some?
          && (crashed ==> dir.View() == Torn(cfg, m, old(dir.View()), cut.value))
          && (!crashed ==> (View(), dir.View()) == Flushed(cfg, m, old(dir.View())))
    {
      if !HeaderOk(d) || !d.complete {
        return FormatError, false;
      }
      if d.tid <= applied {
        return Skipped, false;
      }
      if d.tid != applied + 1 {
        return GapError, false;
      }
      for i := 0 to |d.ops|
        invariant forall k :: 0 <= k < i ==> !d.ops[k].kind.Unknown?
      {
        if d.ops[i].kind.Unknown? {
          return FormatError, false;
        }
      }
      buffer := buffer + [Entry(d.tid, raw)];
      applied := d.tid;
      sinceFlush := sinceFlush + 1;
      verdict, crashed := Advanced, false;
      if sinceFlush >= cfg.flushEvery {
        crashed := Flush(cut);
      }
    }

    /** Segment bytes first, manifest after. With `cut`, the process dies that many bytes into the append. */
    method Flush(cut: Option<nat>) returns (crashed: bool)
      modifies this, dir
      ensures crashed == (cut.Some? && old(buffer) != [])
      ensures crashed ==> dir.View() == Torn(cfg, old(View()), old(dir.View()), cut.value)
      ensures !crashed ==> (View(), dir.View()) == Flushed(cfg, old(View()), old(dir.View()))
    {
      hide FrameAll, RawsOf, Content;
      if buffer == [] {
        return false;
      }
      var blob := Blob(buffer);
      EnsureCurrentSegment();
      var last := |segments| - 1;
      var seg := segments[last];
      if cut.Some? {
        dir.AppendTo(seg.name, blob[..if cut.value <= |blob| then cut.value else |blob|]);
        return true;
      }
      dir.AppendTo(seg.name, blob);
      var first := if seg.firstTid == 0 then buffer[0].tid else seg.firstTid;
      segments := segments[last := Segment(seg.name, first, buffer[|buffer| - 1].tid, seg.nbytes + |blob|)];
      watermark := applied;
      WriteManifest();
      buffer, sinceFlush := [], 0;
      crashed := false;
    }

    method EnsureCurrentSegment()
      modifies this`segments, this`nextSegment
      ensures View() == EnsureSegment(cfg, old(View()))
    {
      if segments != [] && segments[|segments| - 1].nbytes < cfg.maxSegmentBytes {
        return;
      }
      segments := segments + [Segment(nextSegment, 0, 0, 0)];
      nextSegment := nextSegment + 1;
    }

    /** The commit point: a temporary file renamed over the manifest. */
    method WriteManifest()
      modifies dir`manifest
      ensures dir.manifest == Some(ManifestOf(View()))
    {
      dir.manifest := Some(Manifest(watermark, genesisTid, genesisTypes, nextSegment, segments));
    }

    method IterSegment(seg: Segment) returns (raws: seq<Bytes>)
      ensures raws == SegmentFrames(Content(dir.files, seg.name), 0, seg.nbytes)
    {
      hide CutFrame, Content;
      raws := [];
      var file := Content(dir.files, seg.name);
      var offset: nat, remaining: int := 0, seg.nbytes;
      assert [] + SegmentFrames(file, 0, remaining) == SegmentFrames(file, 0, remaining);
      while remaining >= HEADER
        invariant SegmentFrames(file, 0, seg.nbytes) == raws + SegmentFrames(file, offset, remaining)
        decreases remaining
      {
        var cut := CutFrame(file, offset);
        if !cut.Whole? {
          break; // a truncated tail
        }
        PrependAssoc(raws, cut.raw, SegmentFrames(file, cut.next, remaining - (cut.next - offset)));
        raws := raws + [cut.raw];
        remaining := remaining - (cut.next - offset);
        offset := cut.next;
      }
      assert raws + [] == raws;
    }

    /** Every recorded delta past `after`, durable ones first. A pure read. */
    method ReplayAfter(after: Tid) returns (raws: seq<Bytes>)
      ensures raws == Replay(View(), dir.files, tidOf, after)
    {
      raws := [];
      for i := 0 to |segments|
        invariant raws == ReplaySegments(segments[..i], dir.files, tidOf, after)
      {
        assert segments[..i + 1][..i] == segments[..i];
        if segments[i].lastTid > after {
          var frames := IterSegment(segments[i]);
          var later := After(frames, tidOf, after);
          raws := raws + later;
        }
      }
      assert segments[..|segments|] == segments;
      ghost var durable := raws;
      assert durable + [] == durable;
      for i := 0 to |buffer|
        invariant raws == durable + BufferAfter(buffer[..i], after)
      {
        assert buffer[..i + 1][..i] == buffer[..i];
        if buffer[i].tid > after {
          assert durable + BufferAfter(buffer[..i], after) + [buffer[i].raw]
              == durable + (BufferAfter(buffer[..i], after) + [buffer[i].raw]);
          raws := raws + [buffer[i].raw];
        }
      }
      assert buffer[..|buffer|] == buffer;
    }
  }

  lemma PrependAssoc(xs: seq<Bytes>, x: Bytes, ys: seq<Bytes>)
    ensures xs + ([x] + ys) == (xs + [x]) + ys
  {
  }

  /** Opens a log, or refuses a `flush_every` or `max_segment_bytes` below its minimum. */
  method Open(dir: Directory, cfg: Config, tidOf: Bytes -> Tid) returns (log: DeltaLog?)
    modifies dir
    ensures log == null <==> cfg.flushEvery < 1 || cfg.maxSegmentBytes < HEADER + 1
    ensures log == null ==> dir.View() == old(dir.View())
    ensures log != null ==> fresh(log) && log.dir == dir && log.cfg == cfg && log.tidOf == tidOf
                            && (log.View(), dir.View()) == Reopened(old(dir.View()))
  {
    if cfg.flushEvery < 1 || cfg.maxSegmentBytes < HEADER + 1 {
      return null;
    }
    log := new DeltaLog(dir, cfg, tidOf);
  }
}
