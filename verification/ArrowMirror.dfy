/**
 The mirror as an LSM tree: pending rows, immutable segments, compaction, and an atomic manifest that
 alone decides what a reopened mirror sees. A crash may leave any state the directory has been through.
 */
module ArrowMirrors {
  import opened Wire
  import opened ArrowFold

  /** The mirror's directory. `trail` lists every state it has been in, the present one last. */
  class MirrorDir {
    var disk: Disk
    var trail: seq<Disk>

    constructor (disk: Disk)
      ensures this.disk == disk && trail == [disk]
    {
      this.disk, trail := disk, [disk];
    }

    method Write(t: string, n: nat, cells: Cells)
      modifies this
      ensures disk == old(disk).(files := old(disk).files[(t, n) := cells]) && trail == old(trail) + [disk]
    {
      disk := disk.(files := disk.files[(t, n) := cells]);
      trail := trail + [disk];
    }

    /** Temp file and rename: one step. */
    method ReplaceManifest(m: Manifest)
      modifies this
      ensures disk == old(disk).(manifest := Some(m)) && trail == old(trail) + [disk]
    {
      disk := disk.(manifest := Some(m));
      trail := trail + [disk];
    }

    method Unlink(t: string, n: nat)
      modifies this
      ensures disk == old(disk).(files := old(disk).files - {(t, n)}) && trail == old(trail) + [disk]
    {
      disk := disk.(files := disk.files - {(t, n)});
      trail := trail + [disk];
    }
  }

  /** A watermark, the type rows and the plain live rows at it. */
  type Content = (Tid, map<Cid, Shape>, map<string, Rows>)

  // ------------------------------------------------------------ on the values

  function Appended(tables: Tables, t: string): Tables {
    tables[t := Table(Segs(tables, t) + [Next(tables, t)], Next(tables, t) + 1)]
  }

  function Compacted(tables: Tables, t: string): Tables {
    tables[t := Table([Next(tables, t)], Next(tables, t) + 1)]
  }

  function Put(files: Files, t: string, n: nat, cells: Cells): Files {
    files[(t, n) := cells]
  }

  function AllLive(rows: Rows): Cells {
    map o | o in rows :: Some(rows[o])
  }

  lemma LiveOfLive(rows: Rows)
    ensures Live(AllLive(rows)) == rows
  {
  }

  /** Writing the next file of a type leaves every table as it was that does not name it yet. */
  lemma PutElsewhere(files: Files, tables: Tables, t: string, n: nat, cells: Cells, p: string)
    requires TableOk(files, tables, p) && (p != t || n !in Segs(tables, p))
    ensures TableOk(Put(files, t, n, cells), tables, p)
    ensures DurableFold(Put(files, t, n, cells), tables, p) == DurableFold(files, tables, p)
  {
    hide Fold;
    ContentsAgree(files, Put(files, t, n, cells), p, Segs(tables, p));
  }

  lemma NextUnnamed(files: Files, tables: Tables, t: string)
    requires TableOk(files, tables, t)
    ensures Next(tables, t) !in Segs(tables, t)
  {
  }

  lemma AppendTableOk(files: Files, tables: Tables, t: string, cells: Cells)
    requires TableOk(files, tables, t)
    ensures TableOk(Put(files, t, Next(tables, t), cells), Appended(tables, t), t)
  {
    assert Segs(Appended(tables, t), t) == Segs(tables, t) + [Next(tables, t)];
  }

  lemma AppendFolds(files: Files, tables: Tables, t: string, cells: Cells)
    requires TableOk(files, tables, t)
    ensures TableOk(Put(files, t, Next(tables, t), cells), Appended(tables, t), t)
    ensures DurableFold(Put(files, t, Next(tables, t), cells), Appended(tables, t), t) == DurableFold(files, tables, t) + cells
  {
    hide Fold, TableOk;
    AppendTableOk(files, tables, t, cells);
    var n, after := Next(tables, t), Put(files, t, Next(tables, t), cells);
    var segs := Segs(tables, t) + [n];
    assert segs[..|segs| - 1] == Segs(tables, t);
    NextUnnamed(files, tables, t);
    ContentsAgree(files, after, t, Segs(tables, t));
    FoldConcat(Contents(files, t, Segs(tables, t)), [cells]);
    FoldOne(cells);
  }

  lemma CompactFolds(files: Files, tables: Tables, t: string, cells: Cells)
    ensures TableOk(Put(files, t, Next(tables, t), cells), Compacted(tables, t), t)
    ensures DurableFold(Put(files, t, Next(tables, t), cells), Compacted(tables, t), t) == cells
  {
    hide Fold;
    var after, segs := Put(files, t, Next(tables, t), cells), [Next(tables, t)];
    assert segs[..0] == [] && Contents(after, t, []) == [];
    assert Contents(after, t, segs) == [cells];
    FoldOne(cells);
  }

  lemma OtherTable(files: Files, tables: Tables, t: string, table: Table, p: string)
    requires p != t
    ensures TableOk(files, tables[t := table], p) == TableOk(files, tables, p)
    ensures DurableFold(files, tables[t := table], p) == DurableFold(files, tables, p)
  {
    hide Fold, Contents;
    assert Segs(tables[t := table], p) == Segs(tables, p) && Next(tables[t := table], p) == Next(tables, p);
  }

  /** A file above the manifest's numbers, or one it does not name, does not concern a reopening. */
  lemma RecoversPut(disk: Disk, w: Tid, types: map<Cid, Shape>, plain: map<string, Rows>, t: string, n: nat, cells: Cells)
    requires Recovers(disk, w, types, plain) && n !in Segs(ManifestOf(disk).tables, t)
    ensures Recovers(disk.(files := Put(disk.files, t, n, cells)), w, types, plain)
  {
    hide DurableFold, Live;
    forall p
      ensures RecoversTable(Put(disk.files, t, n, cells), ManifestOf(disk).tables, plain, p)
    {
      assert RecoversTable(disk.files, ManifestOf(disk).tables, plain, p);
      PutElsewhere(disk.files, ManifestOf(disk).tables, t, n, cells, p);
    }
  }

  lemma RecoversUnlink(disk: Disk, w: Tid, types: map<Cid, Shape>, plain: map<string, Rows>, t: string, n: nat)
    requires Recovers(disk, w, types, plain) && n !in Segs(ManifestOf(disk).tables, t)
    ensures Recovers(disk.(files := disk.files - {(t, n)}), w, types, plain)
  {
    hide DurableFold, Live;
    forall p
      ensures RecoversTable(disk.files - {(t, n)}, ManifestOf(disk).tables, plain, p)
    {
      assert RecoversTable(disk.files, ManifestOf(disk).tables, plain, p);
      UnnamedFile(disk.files, disk.files - {(t, n)}, ManifestOf(disk).tables, plain, p);
    }
  }

  /** Every state since `from` recovers to the one content or the other. */
  ghost predicate TrailOk(trail: seq<Disk>, from: nat, a: Content, b: Content) {
    forall i :: from <= i < |trail| ==> Recovers(trail[i], a.0, a.1, a.2) || Recovers(trail[i], b.0, b.1, b.2)
  }

  lemma TrailExtends(trail: seq<Disk>, from: nat, a: Content, b: Content, d: Disk)
    requires from <= |trail| && TrailOk(trail, from, a, b) && (Recovers(d, a.0, a.1, a.2) || Recovers(d, b.0, b.1, b.2))
    ensures TrailOk(trail + [d], from, a, b)
  {
    hide Recovers;
  }

  /** Named by a table, or waiting to be unlinked. */
  ghost predicate Accounted(files: Files, tables: Tables, doomed: set<(string, nat)>) {
    && (forall t, n :: (t, n) in files ==> n in Segs(tables, t) || (t, n) in doomed)
    && (forall t, n :: (t, n) in doomed ==> n !in Segs(tables, t) && n < Next(tables, t))
  }

  lemma AppendAccounted(files: Files, tables: Tables, doomed: set<(string, nat)>, t: string, cells: Cells)
    requires Accounted(files, tables, doomed)
    ensures Accounted(Put(files, t, Next(tables, t), cells), Appended(tables, t), doomed)
  {
    var after := Appended(tables, t);
    forall p, n | (p, n) in Put(files, t, Next(tables, t), cells)
      ensures n in Segs(after, p) || (p, n) in doomed
    {
      if p == t && n == Next(tables, t) {
        assert Segs(after, t)[|Segs(tables, t)|] == n;
      } else {
        assert n in Segs(tables, p) ==> n in Segs(after, p);
      }
    }
  }

  lemma CompactAccounted(files: Files, tables: Tables, doomed: set<(string, nat)>, t: string, cells: Cells)
    requires Accounted(files, tables, doomed) && TableOk(files, tables, t)
    ensures Accounted(Put(files, t, Next(tables, t), cells), Compacted(tables, t), doomed + Obsolete(tables, t))
  {
    var after := Compacted(tables, t);
    assert Segs(after, t) == [Next(tables, t)];
  }

  function Obsolete(tables: Tables, t: string): set<(string, nat)> {
    set n | n in Segs(tables, t) :: (t, n)
  }

  /** Reads of a type, pending rows included, see exactly its plain live rows. */
  ghost predicate Shows(files: Files, tables: Tables, pending: map<string, Cells>, plain: map<string, Rows>, t: string) {
    TableOk(files, tables, t) && Live(DurableFold(files, tables, t) + CellsOf(pending, t)) == RowsOf(plain, t)
  }

  ghost predicate AllShow(files: Files, tables: Tables, pending: map<string, Cells>, plain: map<string, Rows>) {
    forall t :: Shows(files, tables, pending, plain, t)
  }

  lemma RecoveredShows(disk: Disk, w: Tid, types: map<Cid, Shape>, plain: map<string, Rows>)
    requires Recovers(disk, w, types, plain)
    ensures AllShow(disk.files, ManifestOf(disk).tables, map[], plain)
  {
    hide Live, DurableFold;
    var tables := ManifestOf(disk).tables;
    forall t
      ensures Shows(disk.files, tables, map[], plain, t)
    {
      assert RecoversTable(disk.files, tables, plain, t);
      assert DurableFold(disk.files, tables, t) + map[] == DurableFold(disk.files, tables, t);
    }
  }

  lemma StageShows(files: Files, tables: Tables, pending: map<string, Cells>, plain: map<string, Rows>, op: MirrorOp)
    requires AllShow(files, tables, pending, plain)
    ensures AllShow(files, tables, Stage(pending, op), PlainStep(plain, op))
  {
    hide Live, DurableFold, Stage, PlainStep;
    forall t
      ensures Shows(files, tables, Stage(pending, op), PlainStep(plain, op), t)
    {
      assert Shows(files, tables, pending, plain, t);
      StageRefines(DurableFold(files, tables, t), pending, plain, op, t);
    }
  }

  lemma ShowsRecover(disk: Disk, pending: map<string, Cells>, w: Tid, types: map<Cid, Shape>, tables: Tables, plain: map<string, Rows>)
    requires AllShow(disk.files, tables, pending, plain) && pending == map[]
    ensures Recovers(disk.(manifest := Some(Manifest(w, types, tables))), w, types, plain)
  {
    hide Live, DurableFold;
    forall t
      ensures RecoversTable(disk.files, tables, plain, t)
    {
      assert Shows(disk.files, tables, pending, plain, t);
      assert DurableFold(disk.files, tables, t) + map[] == DurableFold(disk.files, tables, t);
    }
  }

  /** Flushing a type's pending rows as one more segment changes no read. */
  lemma AppendShows(files: Files, tables: Tables, pending: map<string, Cells>, plain: map<string, Rows>, t: string)
    requires AllShow(files, tables, pending, plain) && t in pending
    ensures AllShow(Put(files, t, Next(tables, t), pending[t]), Appended(tables, t), pending - {t}, plain)
  {
    hide Live, DurableFold, TableOk;
    var after, more := Put(files, t, Next(tables, t), pending[t]), Appended(tables, t);
    forall p
      ensures Shows(after, more, pending - {t}, plain, p)
    {
      assert Shows(files, tables, pending, plain, p);
      if p == t {
        AppendFolds(files, tables, t, pending[t]);
        assert DurableFold(after, more, t) + map[] == DurableFold(after, more, t);
      } else {
        PutElsewhere(files, tables, t, Next(tables, t), pending[t], p);
        OtherTable(after, tables, t, more[t], p);
      }
    }
  }

  /** Compacting a flushed type, tombstones dropped, changes no read. */
  lemma CompactShows(files: Files, tables: Tables, pending: map<string, Cells>, plain: map<string, Rows>, t: string, cells: Cells)
    requires AllShow(files, tables, pending, plain) && t !in pending && cells == AllLive(Live(DurableFold(files, tables, t)))
    ensures AllShow(Put(files, t, Next(tables, t), cells), Compacted(tables, t), pending, plain)
  {
    hide DurableFold, TableOk, Live, AllLive;
    var after, more := Put(files, t, Next(tables, t), cells), Compacted(tables, t);
    forall p
      ensures Shows(after, more, pending, plain, p)
    {
      assert Shows(files, tables, pending, plain, p);
      if p == t {
        CompactFolds(files, tables, t, cells);
        LiveOfLive(Live(DurableFold(files, tables, t)));
        assert DurableFold(files, tables, t) + map[] == DurableFold(files, tables, t);
        assert DurableFold(after, more, t) + map[] == DurableFold(after, more, t);
      } else {
        PutElsewhere(files, tables, t, Next(tables, t), cells, p);
        OtherTable(after, tables, t, more[t], p);
      }
    }
  }

  /** Numbers only grow past what the manifest names. */
  ghost predicate Ahead(durable: Tables, tables: Tables) {
    forall t :: Next(durable, t) <= Next(tables, t)
  }

  lemma AheadUnnamed(disk: Disk, w: Tid, types: map<Cid, Shape>, plain: map<string, Rows>, tables: Tables, t: string)
    requires Recovers(disk, w, types, plain) && Ahead(ManifestOf(disk).tables, tables)
    ensures Next(tables, t) !in Segs(ManifestOf(disk).tables, t)
  {
    hide DurableFold, Live;
    assert RecoversTable(disk.files, ManifestOf(disk).tables, plain, t);
    NextUnnamed(disk.files, ManifestOf(disk).tables, t);
    assert Next(ManifestOf(disk).tables, t) <= Next(tables, t);
  }

  ghost predicate NoTombstones(files: Files, tables: Tables, t: string) {
    forall n, o :: n in Segs(tables, t) && o in FileAt(files, t, n) ==> FileAt(files, t, n)[o].Some?
  }

  lemma CompactedClean(files: Files, tables: Tables, t: string, rows: Rows)
    ensures NoTombstones(Put(files, t, Next(tables, t), AllLive(rows)), Compacted(tables, t), t)
  {
  }

  ghost predicate SameTable(a: Files, ta: Tables, b: Files, tb: Tables, t: string) {
    Segs(ta, t) == Segs(tb, t) && forall n :: FileAt(a, t, n) == FileAt(b, t, n)
  }

  ghost predicate SameSegments(a: Files, ta: Tables, b: Files, tb: Tables, t: string) {
    Segs(ta, t) == Segs(tb, t) && forall n :: n in Segs(ta, t) ==> FileAt(a, t, n) == FileAt(b, t, n)
  }

  // -------------------------------------------------------------- the mirror

  class ArrowMirror {
    const dir: MirrorDir
    const only: Option<set<string>>
    const flushEvery: nat
    const maxSegments: nat
    var types: map<Cid, Shape>
    var tables: Tables
    var watermark: Tid
    var pending: map<string, Cells>
    var sinceFlush: nat
    /** The plain live rows at the watermark, and what is durable: at which watermark, with which rows. */
    ghost var plain: map<string, Rows>
    ghost var durable: Content

    ghost predicate Durable()
      reads this, dir
    {
      Recovers(dir.disk, durable.0, durable.1, durable.2)
    }

    ghost predicate Valid()
      reads this, dir
    {
      && flushEvery >= 1 && maxSegments >= 2
      && ManifestOf(dir.disk).tables == tables && Accounted(dir.disk.files, tables, {})
      && Durable() && AllShow(dir.disk.files, tables, pending, plain)
      && dir.trail != [] && dir.trail[|dir.trail| - 1] == dir.disk
    }

    /** The deltas taken since the last flush are those past the durable watermark, fewer than it flushes at. */
    ghost predicate Counts()
      reads this
    {
      sinceFlush < flushEvery && watermark == durable.0 + sinceFlush
    }

    /** Opens the directory: what the manifest names, and nothing else. */
    constructor (dir: MirrorDir, only: Option<set<string>>, flushEvery: nat, maxSegments: nat, ghost content: Content)
      requires flushEvery >= 1 && maxSegments >= 2 && Recovers(dir.disk, content.0, content.1, content.2)
      requires dir.trail != [] && dir.trail[|dir.trail| - 1] == dir.disk
      modifies dir
      ensures Valid() && this.dir == dir && this.only == only && this.flushEvery == flushEvery && this.maxSegments == maxSegments
      ensures watermark == content.0 && types == content.1 && plain == content.2 && durable == content
      ensures pending == map[] && sinceFlush == 0 && tables == ManifestOf(old(dir.disk)).tables
      ensures forall t, n :: n in Segs(tables, t) ==> FileAt(dir.disk.files, t, n) == FileAt(old(dir.disk).files, t, n)
      ensures old(dir.trail) <= dir.trail && TrailOk(dir.trail, |old(dir.trail)|, content, content)
    {
      this.dir, this.only, this.flushEvery, this.maxSegments := dir, only, flushEvery, maxSegments;
      var m := ManifestOf(dir.disk);
      types, tables, watermark, pending, sinceFlush := m.types, m.tables, m.watermark, map[], 0;
      plain, durable := content.2, content;
      new;
      SweepOrphans();
      RecoveredShows(dir.disk, watermark, types, plain);
    }

    /** Removes the files the manifest does not name. */
    method SweepOrphans()
      requires ManifestOf(dir.disk).tables == tables && Durable()
      requires dir.trail != [] && dir.trail[|dir.trail| - 1] == dir.disk
      modifies dir
      ensures ManifestOf(dir.disk).tables == tables && Durable() && Accounted(dir.disk.files, tables, {})
      ensures old(dir.trail) <= dir.trail && TrailOk(dir.trail, |old(dir.trail)|, durable, durable)
      ensures forall t, n :: n in Segs(tables, t) ==> FileAt(dir.disk.files, t, n) == FileAt(old(dir.disk).files, t, n)
      ensures dir.trail != [] && dir.trail[|dir.trail| - 1] == dir.disk
    {
      hide Recovers;
      ghost var from := |dir.trail|;
      var todo := dir.disk.files.Keys;
      while todo != {}
        invariant todo <= dir.disk.files.Keys && ManifestOf(dir.disk).tables == tables && Durable()
        invariant forall t, n :: (t, n) in dir.disk.files && (t, n) !in todo ==> n in Segs(tables, t)
        invariant old(dir.trail) <= dir.trail && TrailOk(dir.trail, from, durable, durable)
        invariant forall t, n :: n in Segs(tables, t) ==> FileAt(dir.disk.files, t, n) == FileAt(old(dir.disk).files, t, n)
        invariant dir.trail != [] && dir.trail[|dir.trail| - 1] == dir.disk
        decreases todo
      {
        var f :| f in todo;
        todo := todo - {f};
        if f.1 !in Segs(tables, f.0) {
          RecoversUnlink(dir.disk, durable.0, durable.1, durable.2, f.0, f.1);
          ghost var before := dir.trail;
          dir.Unlink(f.0, f.1);
          TrailExtends(before, from, durable, durable, dir.disk);
        }
      }
    }

    // -------------------------------------------------------------------- reads

    method ReadSegments(t: string) returns (parts: seq<Cells>)
      ensures parts == Contents(dir.disk.files, t, Segs(tables, t))
    {
      var segs := Segs(tables, t);
      parts := [];
      for i := 0 to |segs|
        invariant parts == Contents(dir.disk.files, t, segs[..i])
      {
        assert segs[..i + 1][..i] == segs[..i];
        parts := parts + [FileAt(dir.disk.files, t, segs[i])];
      }
      assert segs[..|segs|] == segs;
    }

    /** The table of one type: exactly the plain live rows, unflushed ones included. */
    method Table(t: string) returns (rows: Rows)
      requires Valid()
      ensures rows == RowsOf(plain, t)
    {
      hide Recovers, Contents, Fold, Live;
      assert Shows(dir.disk.files, tables, pending, plain, t);
      var parts := ReadSegments(t);
      if t in pending && pending[t] != map[] {
        FoldConcat(parts, [pending[t]]);
        FoldOne(pending[t]);
        parts := parts + [pending[t]];
      } else {
        assert CellsOf(pending, t) == map[];
        assert Fold(parts) + map[] == Fold(parts);
      }
      var folded := FoldNewest(parts);
      rows := Live(folded);
    }

    // -------------------------------------------------------------------- writes

    /** Decodes and validates every operation before anything is changed. */
    method DecodeOps(ops: seq<Op>, lineage: map<Cid, Shape>) returns (batch: Option<seq<MirrorOp>>)
      ensures batch == Decode(ops, lineage, only)
    {
      hide DecodeOp;
      var out: seq<MirrorOp> := [];
      for i := 0 to |ops|
        invariant Decode(ops[..i], lineage, only) == Some(out)
      {
        assert ops[..i + 1][..i] == ops[..i];
        var one := DecodeOp(ops[i], lineage, only);
        if one.None? {
          BadOpRefuses(ops, i, lineage, only);
          return None;
        }
        out := out + one.value;
      }
      assert ops[..|ops|] == ops;
      batch := Some(out);
    }

    /** Mirrors one delta. A refused or repeated delta leaves no trace. */
    method Apply(d: Delta) returns (v: Verdict)
      requires Valid()
      modifies this, dir
      ensures Valid()
      ensures v == Verdicts(old(watermark), old(types), d, only)
      ensures v != Advanced ==> watermark == old(watermark) && types == old(types) && plain == old(plain) && durable == old(durable)
      ensures v != Advanced ==> dir.disk == old(dir.disk) && dir.trail == old(dir.trail)
      ensures v != Advanced ==> pending == old(pending) && tables == old(tables) && sinceFlush == old(sinceFlush)
      ensures v == Advanced ==> watermark == d.tid && types == AddTypes(old(types), d.types)
      ensures v == Advanced ==> plain == PlainSteps(old(plain), Decode(d.ops, AddTypes(old(types), d.types), only).value)
      ensures v == Advanced && old(sinceFlush) + 1 < flushEvery ==>
        && sinceFlush == old(sinceFlush) + 1 && tables == old(tables) && dir.disk == old(dir.disk)
        && pending == StageSteps(old(pending), Decode(d.ops, AddTypes(old(types), d.types), only).value)
      ensures v == Advanced && old(sinceFlush) + 1 >= flushEvery ==>
        sinceFlush == 0 && pending == map[] && durable == (watermark, types, plain)
      ensures old(Counts()) ==> Counts()
      ensures (durable == old(durable) && dir.trail == old(dir.trail)) || durable == (watermark, types, plain)
      ensures |old(dir.trail)| <= |dir.trail| && TrailOk(dir.trail, |old(dir.trail)|, old(durable), durable)
    {
      hide Decode, PlainSteps, Recovers, AllShow, Accounted, AddTypes;
      if !HeaderOk(d) {
        return FormatError;
      }
      if d.tid <= watermark {
        return Skipped;
      }
      if d.tid != watermark + 1 {
        return GapError;
      }
      if !d.complete {
        return FormatError;
      }
      var lineage := AddTypes(types, d.types);
      var batch := DecodeOps(d.ops, lineage);
      if batch.None? {
        return FormatError;
      }
      types := lineage;
      StageAll(batch.value);
      watermark := d.tid;
      sinceFlush := sinceFlush + 1;
      if sinceFlush >= flushEvery {
        Flush();
      }
      v := Advanced;
    }

    method StageAll(ops: seq<MirrorOp>)
      requires Valid()
      modifies this`pending, this`plain
      ensures Valid() && plain == PlainSteps(old(plain), ops) && pending == StageSteps(old(pending), ops)
    {
      hide Recovers, AllShow, Accounted, PlainStep, Stage;
      for i := 0 to |ops|
        invariant Valid() && plain == PlainSteps(old(plain), ops[..i]) && pending == StageSteps(old(pending), ops[..i])
      {
        assert ops[..i + 1][..i] == ops[..i];
        StageShows(dir.disk.files, tables, pending, plain, ops[i]);
        pending := Stage(pending, ops[i]);
        plain := PlainStep(plain, ops[i]);
      }
      assert ops[..|ops|] == ops;
    }

    // ------------------------------------------------------- flush and compact

    /** Between the segment writes and the manifest: reads are unchanged, and so is what would recover. */
    ghost predicate Working(rest: map<string, Cells>, doomed: set<(string, nat)>)
      reads this, dir
    {
      && Durable() && Accounted(dir.disk.files, tables, doomed) && Ahead(ManifestOf(dir.disk).tables, tables)
      && AllShow(dir.disk.files, tables, rest, plain)
      && dir.trail != [] && dir.trail[|dir.trail| - 1] == dir.disk
    }

    method WriteSegment(t: string, ghost rest: map<string, Cells>, ghost doomed: set<(string, nat)>, ghost from: nat,
                        ghost was: Content, cells: Cells)
      requires Working(rest, doomed) && t in rest && rest[t] == cells && from <= |dir.trail| && TrailOk(dir.trail, from, was, durable)
      modifies this`tables, dir
      ensures Working(rest - {t}, doomed) && from <= |dir.trail| && TrailOk(dir.trail, from, was, durable)
      ensures ManifestOf(dir.disk) == ManifestOf(old(dir.disk)) && tables == Appended(old(tables), t)
      ensures dir.disk.files == Put(old(dir.disk).files, t, Next(old(tables), t), cells)
    {
      hide Recovers, AllShow, Accounted, TrailOk;
      ghost var n, before := Next(tables, t), dir.trail;
      AheadUnnamed(dir.disk, durable.0, durable.1, durable.2, tables, t);
      RecoversPut(dir.disk, durable.0, durable.1, durable.2, t, n, cells);
      AppendShows(dir.disk.files, tables, rest, plain, t);
      AppendAccounted(dir.disk.files, tables, doomed, t, cells);
      dir.Write(t, Next(tables, t), cells);
      TrailExtends(before, from, was, durable, dir.disk);
      tables := Appended(tables, t);
    }

    /** Folds a type's segments into one without tombstones; returns the files it makes obsolete. */
    method CompactType(t: string, ghost rest: map<string, Cells>, ghost doomed: set<(string, nat)>, ghost from: nat,
                       ghost was: Content) returns (obsolete: set<(string, nat)>)
      requires Working(rest, doomed) && t !in rest && from <= |dir.trail| && TrailOk(dir.trail, from, was, durable)
      modifies this`tables, dir
      ensures Working(rest, doomed + obsolete) && from <= |dir.trail| && TrailOk(dir.trail, from, was, durable)
      ensures ManifestOf(dir.disk) == ManifestOf(old(dir.disk)) && tables == Compacted(old(tables), t)
      ensures NoTombstones(dir.disk.files, tables, t)
      ensures forall p, n :: p != t ==> FileAt(dir.disk.files, p, n) == FileAt(old(dir.disk).files, p, n)
    {
      hide Recovers, AllShow, Accounted, TrailOk, Fold, Live, AllLive, TableOk, NoTombstones;
      var parts := ReadSegments(t);
      var folded := FoldNewest(parts);
      var cells := AllLive(Live(folded));
      ghost var n, before := Next(tables, t), dir.trail;
      ShownTable(dir.disk.files, tables, rest, plain, t);
      AheadUnnamed(dir.disk, durable.0, durable.1, durable.2, tables, t);
      RecoversPut(dir.disk, durable.0, durable.1, durable.2, t, n, cells);
      CompactShows(dir.disk.files, tables, rest, plain, t, cells);
      CompactAccounted(dir.disk.files, tables, doomed, t, cells);
      CompactedClean(dir.disk.files, tables, t, Live(folded));
      dir.Write(t, Next(tables, t), cells);
      TrailExtends(before, from, was, durable, dir.disk);
      obsolete := Obsolete(tables, t);
      tables := Compacted(tables, t);
    }

    /** The commit point: the manifest names the new state, and only then the obsolete files go. */
    method CommitManifest(doomed: set<(string, nat)>, ghost from: nat, ghost was: Content)
      requires Working(map[], doomed) && from <= |dir.trail| && TrailOk(dir.trail, from, was, durable)
      requires durable == was || durable == (watermark, types, plain)
      modifies this`durable, dir
      ensures Durable() && Accounted(dir.disk.files, tables, {}) && AllShow(dir.disk.files, tables, map[], plain)
      ensures ManifestOf(dir.disk).tables == tables && dir.trail != [] && dir.trail[|dir.trail| - 1] == dir.disk
      ensures durable == (watermark, types, plain) && from <= |dir.trail| && TrailOk(dir.trail, from, was, durable)
      ensures forall t, n :: n in Segs(tables, t) ==> FileAt(dir.disk.files, t, n) == FileAt(old(dir.disk).files, t, n)
    {
      hide Recovers, AllShow, DurableFold;
      ghost var before := dir.trail;
      if durable == was {
        TrailWeakens(before, from, was, (watermark, types, plain));
      }
      ShowsRecover(dir.disk, map[], watermark, types, tables, plain);
      dir.ReplaceManifest(Manifest(watermark, types, tables));
      durable := (watermark, types, plain);
      TrailExtends(before, from, was, durable, dir.disk);
      ghost var files := dir.disk.files;
      var todo := doomed;
      while todo != {}
        invariant todo <= doomed && Durable() && ManifestOf(dir.disk).tables == tables && durable == (watermark, types, plain)
        invariant Accounted(dir.disk.files, tables, todo)
        invariant forall t, n :: n in Segs(tables, t) ==>
          ((t, n) in dir.disk.files <==> (t, n) in files) && FileAt(dir.disk.files, t, n) == FileAt(files, t, n)
        invariant from <= |dir.trail| && TrailOk(dir.trail, from, was, durable)
        invariant dir.trail != [] && dir.trail[|dir.trail| - 1] == dir.disk
        decreases todo
      {
        var f :| f in todo;
        todo := todo - {f};
        RecoversUnlink(dir.disk, durable.0, durable.1, durable.2, f.0, f.1);
        before := dir.trail;
        dir.Unlink(f.0, f.1);
        TrailExtends(before, from, was, durable, dir.disk);
      }
      RecoveredShows(dir.disk, watermark, types, plain);
    }

    /** One segment per touched type, compaction where there are too many, then the manifest. */
    method Flush()
      requires Valid()
      modifies this`tables, this`pending, this`sinceFlush, this`durable, dir
      ensures Valid() && pending == map[] && sinceFlush == 0 && durable == (watermark, types, plain)
      ensures |old(dir.trail)| <= |dir.trail| && TrailOk(dir.trail, |old(dir.trail)|, old(durable), durable)
      ensures FlushedTo(old(dir.disk.files), old(tables), old(pending), maxSegments, dir.disk.files, tables, {})
    {
      hide Recovers, AllShow, Accounted, FlushedTo, FileAt;
      ghost var from, files0, tables0 := |dir.trail|, dir.disk.files, tables;
      var doomed: set<(string, nat)> := {};
      var todo := pending.Keys;
      assert pending - (pending.Keys - todo) == pending;
      NothingFlushedYet(files0, tables0, pending, maxSegments);
      while todo != {}
        invariant todo <= pending.Keys && pending == old(pending) && durable == old(durable)
        invariant Working(pending - (pending.Keys - todo), doomed)
        invariant from <= |dir.trail| && TrailOk(dir.trail, from, durable, durable)
        invariant FlushedTo(files0, tables0, pending, maxSegments, dir.disk.files, tables, todo)
        decreases todo
      {
        var t :| t in todo;
        ghost var rest, left, before, were := pending - (pending.Keys - todo), todo, dir.disk.files, tables;
        WriteSegment(t, rest, doomed, from, durable, pending[t]);
        PutOthers(before, t, Next(were, t), pending[t]);
        todo := todo - {t};
        assert rest - {t} == pending - (pending.Keys - todo);
        if |Segs(tables, t)| > maxSegments {
          var obsolete := CompactType(t, rest - {t}, doomed, from, durable);
          doomed := doomed + obsolete;
        }
        OneMoreFlushed(files0, tables0, pending, maxSegments, before, were, dir.disk.files, tables, left, t);
      }
      assert pending - (pending.Keys - {}) == map[];
      ghost var files := dir.disk.files;
      CommitManifest(doomed, from, durable);
      FlushedFiles(files0, tables0, pending, maxSegments, files, dir.disk.files, tables);
      pending := map[];
      sinceFlush := 0;
    }

    /** Flushes, then collapses every type that has several segments. A type whose first segment this flush
        writes keeps the tombstones that were pending. */
    method Compact()
      requires Valid()
      modifies this`tables, this`pending, this`sinceFlush, this`durable, dir
      ensures Valid() && pending == map[] && sinceFlush == 0 && durable == (watermark, types, plain)
      ensures |old(dir.trail)| <= |dir.trail| && TrailOk(dir.trail, |old(dir.trail)|, old(durable), durable)
      ensures forall t :: |Segs(tables, t)| <= 1
      ensures forall t :: t in old(pending) && old(Segs(tables, t)) == [] ==>
        (NoTombstones(dir.disk.files, tables, t) <==> forall o :: o in old(pending)[t] ==> old(pending)[t][o].Some?)
    {
      hide Recovers, AllShow, Accounted, FlushedTo, NoTombstones, TrailOk;
      ghost var from, was, files0, tables0 := |dir.trail|, durable, dir.disk.files, tables;
      ghost var held: map<string, Cells> := pending;
      Flush();
      ghost var files, flushed := dir.disk.files, tables;
      CompactAll(from, was);
      forall t | t in held && Segs(tables0, t) == []
        ensures NoTombstones(dir.disk.files, tables, t) <==> forall o :: o in held[t] ==> held[t][o].Some?
      {
        FirstSegment(files0, tables0, held, maxSegments, files, flushed, t);
      }
    }

    /** Tombstones go exactly where several segments were folded: a lone segment is left as it is. */
    method CompactAll(ghost from: nat, ghost was: Content)
      requires Valid() && pending == map[] && durable == (watermark, types, plain)
      requires from <= |dir.trail| && TrailOk(dir.trail, from, was, durable)
      modifies this`tables, this`durable, dir
      ensures Valid() && pending == map[] && durable == (watermark, types, plain)
      ensures from <= |dir.trail| && TrailOk(dir.trail, from, was, durable)
      ensures forall t :: |Segs(tables, t)| <= 1
      ensures forall t :: (NoTombstones(dir.disk.files, tables, t)
        <==> old(|Segs(tables, t)| > 1 || NoTombstones(dir.disk.files, tables, t)))
    {
      hide Recovers, AllShow, Accounted, FileAt, TrailOk, FoldedButFor, NoTombstones;
      ghost var files0, tables0 := dir.disk.files, tables;
      NothingFoldedYet(files0, tables0);
      var doomed: set<(string, nat)> := {};
      var todo := tables.Keys;
      while todo != {}
        invariant pending == map[] && durable == (watermark, types, plain) && Working(map[], doomed)
        invariant from <= |dir.trail| && TrailOk(dir.trail, from, was, durable)
        invariant FoldedButFor(files0, tables0, dir.disk.files, tables, todo)
        decreases todo
      {
        var t :| t in todo;
        ghost var left := todo;
        todo := todo - {t};
        ghost var before, were := dir.disk.files, tables;
        if |Segs(tables, t)| > 1 {
          var obsolete := CompactType(t, map[], doomed, from, was);
          doomed := doomed + obsolete;
        }
        OneMoreFolded(files0, tables0, before, were, dir.disk.files, tables, left, t);
      }
      ghost var files := dir.disk.files;
      CommitManifest(doomed, from, was);
      forall t
        ensures |Segs(tables, t)| <= 1
        ensures NoTombstones(dir.disk.files, tables, t) <==> |Segs(tables0, t)| > 1 || NoTombstones(files0, tables0, t)
      {
        FoldedTombstones(files0, tables0, files, dir.disk.files, tables, t);
      }
    }
  }

  /** A pending type that still had room has its rows as one more segment, a full one is folded into one without
      tombstones, but for those still to do; a type with nothing pending is as it was. */
  ghost predicate FlushedTo(files0: Files, tables0: Tables, pending: map<string, Cells>, maxSegments: nat, files: Files, tables: Tables,
                            todo: set<string>) {
    forall t :: FlushedType(files0, tables0, pending, maxSegments, files, tables, todo, t)
  }

  ghost predicate FlushedType(files0: Files, tables0: Tables, pending: map<string, Cells>, maxSegments: nat, files: Files, tables: Tables,
                              todo: set<string>, t: string) {
    if t in todo || t !in pending then SameSegments(files0, tables0, files, tables, t) && Next(tables, t) == Next(tables0, t)
    else if |Segs(tables0, t)| < maxSegments then
      Segs(tables, t) == Segs(tables0, t) + [Next(tables0, t)] && FileAt(files, t, Next(tables0, t)) == pending[t]
    else Segs(tables, t) == [Next(tables0, t) + 1] && NoTombstones(files, tables, t)
  }

  lemma PutOthers(files: Files, t: string, n: nat, cells: Cells)
    ensures forall p, k :: p != t ==> FileAt(Put(files, t, n, cells), p, k) == FileAt(files, p, k)
  {
  }

  lemma NothingFlushedYet(files: Files, tables: Tables, pending: map<string, Cells>, maxSegments: nat)
    ensures FlushedTo(files, tables, pending, maxSegments, files, tables, pending.Keys)
  {
  }

  lemma OneMoreFlushed(files0: Files, tables0: Tables, pending: map<string, Cells>, maxSegments: nat, before: Files, were: Tables,
                       files: Files, tables: Tables, todo: set<string>, t: string)
    requires FlushedTo(files0, tables0, pending, maxSegments, before, were, todo) && t in todo && t in pending
    requires if |Segs(were, t)| + 1 > maxSegments then tables == Compacted(Appended(were, t), t) && NoTombstones(files, tables, t)
             else tables == Appended(were, t) && files == Put(before, t, Next(were, t), pending[t])
    requires forall p, n :: p != t ==> FileAt(files, p, n) == FileAt(before, p, n)
    ensures FlushedTo(files0, tables0, pending, maxSegments, files, tables, todo - {t})
  {
    assert FlushedType(files0, tables0, pending, maxSegments, before, were, todo, t);
    forall p
      ensures FlushedType(files0, tables0, pending, maxSegments, files, tables, todo - {t}, p)
    {
      if p != t {
        assert FlushedType(files0, tables0, pending, maxSegments, before, were, todo, p);
        assert Segs(tables, p) == Segs(were, p) && Next(tables, p) == Next(were, p);
      }
    }
  }

  lemma FlushedFiles(files0: Files, tables0: Tables, pending: map<string, Cells>, maxSegments: nat, files: Files, after: Files, tables: Tables)
    requires FlushedTo(files0, tables0, pending, maxSegments, files, tables, {})
    requires forall t, n :: n in Segs(tables, t) ==> FileAt(after, t, n) == FileAt(files, t, n)
    ensures FlushedTo(files0, tables0, pending, maxSegments, after, tables, {})
  {
    hide FileAt;
    forall t
      ensures FlushedType(files0, tables0, pending, maxSegments, after, tables, {}, t)
    {
      assert FlushedType(files0, tables0, pending, maxSegments, files, tables, {}, t);
    }
  }

  lemma FirstSegment(files0: Files, tables0: Tables, pending: map<string, Cells>, maxSegments: nat, files: Files, tables: Tables, t: string)
    requires FlushedTo(files0, tables0, pending, maxSegments, files, tables, {}) && maxSegments >= 1
    requires t in pending && Segs(tables0, t) == []
    ensures |Segs(tables, t)| == 1
    ensures NoTombstones(files, tables, t) <==> forall o :: o in pending[t] ==> pending[t][o].Some?
  {
    assert FlushedType(files0, tables0, pending, maxSegments, files, tables, {}, t);
    assert Segs(tables, t) == [Next(tables0, t)];
  }

  /** Types with several segments are folded into one without tombstones, but for those still to do; the
      others are as they were. */
  ghost predicate FoldedButFor(files0: Files, tables0: Tables, files: Files, tables: Tables, todo: set<string>) {
    forall t :: if t in todo || |Segs(tables0, t)| <= 1 then SameTable(files0, tables0, files, tables, t)
                else |Segs(tables, t)| == 1 && NoTombstones(files, tables, t)
  }

  lemma NothingFoldedYet(files: Files, tables: Tables)
    ensures FoldedButFor(files, tables, files, tables, tables.Keys)
  {
  }

  lemma OneMoreFolded(files0: Files, tables0: Tables, before: Files, were: Tables, files: Files, tables: Tables, todo: set<string>, t: string)
    requires FoldedButFor(files0, tables0, before, were, todo) && t in todo
    requires if |Segs(were, t)| > 1 then tables == Compacted(were, t) && NoTombstones(files, tables, t)
             else files == before && tables == were
    requires forall p, n :: p != t ==> FileAt(files, p, n) == FileAt(before, p, n)
    ensures FoldedButFor(files0, tables0, files, tables, todo - {t})
  {
    hide FileAt;
    assert SameTable(files0, tables0, before, were, t);
    assert forall p :: p != t ==> Segs(tables, p) == Segs(were, p);
  }

  lemma FoldedTombstones(files0: Files, tables0: Tables, files: Files, after: Files, tables: Tables, t: string)
    requires FoldedButFor(files0, tables0, files, tables, {})
    requires forall n :: n in Segs(tables, t) ==> FileAt(after, t, n) == FileAt(files, t, n)
    ensures |Segs(tables, t)| <= 1
    ensures NoTombstones(after, tables, t) <==> |Segs(tables0, t)| > 1 || NoTombstones(files0, tables0, t)
  {
    hide FileAt;
  }

  // -------------------------------------------- a tombstone that compaction keeps

  /** What two deltas leave of a type before its first flush: a record stored and deleted is a tombstone. */
  lemma StoredAndDeleted(t: string, o: Oid, row: Row)
    ensures StageSteps(StageSteps(map[], [MirrorOp(t, o, Some(row))]), [MirrorOp(t, o, None)]) == map[t := map[o := None]]
  {
    var once := Stage(map[], MirrorOp(t, o, Some(row)));
    var held: Cells := map[o := Some(row)];
    var a, b := [MirrorOp(t, o, Some(row))], [MirrorOp(t, o, None)];
    assert a[..0] == [] == b[..0] && StageSteps(map[], a) == once;
    assert CellsOf(once, t) == held && once.Keys == {t};
    assert held[o := None] == map[o := None];
  }

  /** The first commit of a store inserts one record, the second deletes it. */
  function StoreDelta(shape: Shape, o: Oid, payload: Bytes): Delta {
    Delta(FORMAT_MARKER, CONTRACT_VERSION, true, 1, 0, 0, [Op(true, Upsert, o, CID_BASE, Some(payload), None)], [TypeRow(CID_BASE, shape)], None)
  }

  function DeleteDelta(o: Oid, payload: Bytes): Delta {
    Delta(FORMAT_MARKER, CONTRACT_VERSION, true, 2, 0, 0, [Op(true, Delete, o, CID_BASE, None, Some(payload))], [], None)
  }

  lemma DecodeOne(op: Op, types: map<Cid, Shape>)
    requires DecodeOp(op, types, None).Some?
    ensures Decode([op], types, None) == DecodeOp(op, types, None)
  {
    assert [op][..0] == [] && Decode([], types, None) == Some([]);
    assert [] + DecodeOp(op, types, None).value == DecodeOp(op, types, None).value;
  }

  lemma TypesOfBoth(shape: Shape, o: Oid, payload: Bytes)
    ensures var types := map[CID_BASE := shape];
      AddTypes(map[], StoreDelta(shape, o, payload).types) == types && AddTypes(types, DeleteDelta(o, payload).types) == types
  {
    assert [TypeRow(CID_BASE, shape)][..0] == [];
  }

  lemma DecodeBoth(shape: Shape, o: Oid, payload: Bytes)
    ensures var types := map[CID_BASE := shape];
      && Decode(StoreDelta(shape, o, payload).ops, types, None) == Some([MirrorOp(shape.typename, o, Some(Row(shape, payload)))])
      && Decode(DeleteDelta(o, payload).ops, types, None) == Some([MirrorOp(shape.typename, o, None)])
  {
    var types := map[CID_BASE := shape];
    DecodeOne(Op(true, Upsert, o, CID_BASE, Some(payload), None), types);
    DecodeOne(Op(true, Delete, o, CID_BASE, None, Some(payload)), types);
  }

  /** A mirror of an empty directory that takes both deltas and is then compacted: the tombstone of the record
      is the lone segment's, and stays. */
  method CompactKeepsTombstone(shape: Shape, o: Oid, payload: Bytes) returns (m: ArrowMirror)
    ensures fresh(m) && m.Valid() && m.watermark == 2 && m.durable.0 == 2
    ensures !NoTombstones(m.dir.disk.files, m.tables, shape.typename)
  {
    hide Recovers, AllShow, Accounted, TrailOk, Decode, DecodeOp, AddTypes, StageSteps, PlainSteps, NoTombstones;
    EmptyRecovers();
    TypesOfBoth(shape, o, payload);
    DecodeBoth(shape, o, payload);
    StoredAndDeleted(shape.typename, o, Row(shape, payload));
    var dir := new MirrorDir(Disk(map[], None));
    m := new ArrowMirror(dir, None, 3, 2, (0, map[], map[]));
    var stored := m.Apply(StoreDelta(shape, o, payload));
    var gone := m.Apply(DeleteDelta(o, payload));
    assert m.pending == map[shape.typename := map[o := None]] && m.tables == map[];
    m.Compact();
    var held: Cells := map[o := None];
    assert o in held && held[o].None?;
  }

  /** The judgement on a delta, in the order the checks are made. */
  function Verdicts(watermark: Tid, types: map<Cid, Shape>, d: Delta, only: Option<set<string>>): Verdict {
    if !HeaderOk(d) then FormatError
    else if d.tid <= watermark then Skipped
    else if d.tid != watermark + 1 then GapError
    else if !d.complete || Decode(d.ops, AddTypes(types, d.types), only).None? then FormatError
    else Advanced
  }

  lemma {:induction false} BadOpRefuses(ops: seq<Op>, i: nat, types: map<Cid, Shape>, only: Option<set<string>>)
    requires i < |ops| && DecodeOp(ops[i], types, only).None?
    ensures Decode(ops, types, only).None?
    decreases |ops|
  {
    hide DecodeOp;
    if i < |ops| - 1 {
      assert ops[..|ops| - 1][i] == ops[i];
      BadOpRefuses(ops[..|ops| - 1], i, types, only);
    }
  }

  lemma ShownTable(files: Files, tables: Tables, pending: map<string, Cells>, plain: map<string, Rows>, t: string)
    requires AllShow(files, tables, pending, plain)
    ensures TableOk(files, tables, t)
  {
    hide DurableFold;
    assert Shows(files, tables, pending, plain, t);
  }

  lemma TrailWeakens(trail: seq<Disk>, from: nat, a: Content, b: Content)
    requires TrailOk(trail, from, a, a)
    ensures TrailOk(trail, from, a, b)
  {
    hide Recovers;
  }

  // -------------------------------------------------------------- every session

  function TypesAt(stream: seq<Delta>, w: nat): map<Cid, Shape>
    requires w <= |stream|
  {
    if w == 0 then map[] else AddTypes(TypesAt(stream, w - 1), stream[w - 1].types)
  }

  /** The plain live rows after the first `w` deltas. */
  function PlainAt(stream: seq<Delta>, w: nat, only: Option<set<string>>): map<string, Rows>
    requires w <= |stream|
  {
    if w == 0 then map[]
    else
      var batch := Decode(stream[w - 1].ops, TypesAt(stream, w), only);
      if batch.None? then PlainAt(stream, w - 1, only) else PlainSteps(PlainAt(stream, w - 1, only), batch.value)
  }

  ghost predicate At(stream: seq<Delta>, only: Option<set<string>>, c: Content) {
    c.0 <= |stream| && c.1 == TypesAt(stream, c.0) && c.2 == PlainAt(stream, c.0, only)
  }

  /** Deliver any delta of the stream again or for the first time, flush, compact, or crash anywhere
      inside the last operation, or inside the sweep of the last reopening, and reopen. */
  datatype SessionStep = Deliver(i: nat) | FlushNow | CompactNow | Crash(k: nat)

  lemma EmptyRecovers()
    ensures Recovers(Disk(map[], None), 0, map[], map[])
  {
    forall t
      ensures RecoversTable(map[], map[], map[], t)
    {
    }
  }

  lemma NextContent(stream: seq<Delta>, only: Option<set<string>>, c: Content, d: Delta)
    requires At(stream, only, c) && c.0 < |stream| && d == stream[c.0] && Decode(d.ops, AddTypes(c.1, d.types), only).Some?
    ensures At(stream, only, (c.0 + 1, AddTypes(c.1, d.types), PlainSteps(c.2, Decode(d.ops, AddTypes(c.1, d.types), only).value)))
  {
  }

  /** What a session keeps: the mirror and its durable state are at points of the stream, and every
      directory state since `window` recovers to the durable state before the last operation or after. */
  ghost predicate InStep(m: ArrowMirror, stream: seq<Delta>, window: nat, was: Content)
    reads m, m.dir
  {
    && m.Valid() && m.Counts()
    && At(stream, m.only, (m.watermark, m.types, m.plain)) && At(stream, m.only, m.durable) && At(stream, m.only, was)
    && was.0 <= m.durable.0 <= m.watermark <= |stream|
    && window <= |m.dir.trail| && TrailOk(m.dir.trail, window, was, m.durable)
  }

  /** Where the watermark goes: one further for the next delta, when it is well formed, and nowhere else. */
  function MarkAfter(stream: seq<Delta>, only: Option<set<string>>, w: nat, step: SessionStep): nat
    requires w <= |stream|
  {
    if step.Deliver? && step.i == w < |stream| && Verdicts(w, TypesAt(stream, w), stream[w], only) == Advanced then w + 1 else w
  }

  method Operate(m: ArrowMirror, stream: seq<Delta>, step: SessionStep, ghost window: nat, ghost was: Content)
    requires InStep(m, stream, window, was) && forall i :: 0 <= i < |stream| ==> stream[i].tid == i + 1
    requires !step.Crash?
    modifies m, m.dir
    ensures InStep(m, stream, |old(m.dir.trail)|, old(m.durable))
    ensures m.watermark == MarkAfter(stream, m.only, old(m.watermark), step) <= old(m.durable.0) + m.flushEvery
    ensures !step.Deliver? ==> m.durable.0 == m.watermark
  {
    hide Recovers, AllShow, Accounted, PlainAt, TypesAt, Decode, AddTypes, PlainSteps, HeaderOk;
    if step.FlushNow? {
      m.Flush();
    } else if step.CompactNow? {
      m.Compact();
    } else if step.i < |stream| {
      ghost var before: Content := (m.watermark, m.types, m.plain);
      var v := m.Apply(stream[step.i]);
      if v == Advanced {
        NextContent(stream, m.only, before, stream[step.i]);
      }
    }
  }

  /** The process dies, the directory is left in any state since `window`, or as it is, and the mirror is
      reopened. What it then shows is durable, and no older than what was durable before the operation that died. */
  method Reopen(m: ArrowMirror, stream: seq<Delta>, k: nat, window: nat, ghost was: Content) returns (n: ArrowMirror)
    requires InStep(m, stream, window, was)
    ensures fresh(n) && fresh(n.dir) && n.only == m.only && n.flushEvery == m.flushEvery && InStep(n, stream, 0, n.durable)
    ensures was.0 <= n.watermark == n.durable.0 <= m.durable.0
  {
    hide Recovers, AllShow, Accounted, PlainAt, TypesAt, Decode, AddTypes, PlainSteps;
    var left := if window + k < |m.dir.trail| then m.dir.trail[window + k] else m.dir.disk;
    ghost var content := if Recovers(left, was.0, was.1, was.2) then was else m.durable;
    var reopened := new MirrorDir(left);
    n := new ArrowMirror(reopened, m.only, m.flushEvery, m.maxSegments, content);
    assert n.dir.trail[0] == left;
  }

  /** What a session says about its watermarks: `marks` after each step, and under each the `settled` one,
      which was durable before the operation that could still be lost. */
  ghost predicate Settles(stream: seq<Delta>, steps: seq<SessionStep>, only: Option<set<string>>, marks: seq<nat>, settled: seq<nat>) {
    && |marks| == |settled| == |steps| + 1 && marks[0] == settled[0] == 0
    && Bounded(|stream|, marks, settled)
    && (forall i :: 0 <= i < |steps| ==>
          if steps[i].Crash? then marks[i + 1] == settled[i + 1] else marks[i + 1] == MarkAfter(stream, only, marks[i], steps[i]))
    && FlushesSettle(steps, marks, settled)
  }

  ghost predicate Bounded(length: nat, marks: seq<nat>, settled: seq<nat>)
    requires |marks| == |settled|
  {
    && (forall i :: 0 <= i < |marks| ==> settled[i] <= marks[i] <= length)
    && (forall i :: 0 <= i < |marks| - 1 ==> settled[i] <= settled[i + 1])
  }

  ghost predicate FlushesSettle(steps: seq<SessionStep>, marks: seq<nat>, settled: seq<nat>)
    requires |marks| == |settled| == |steps| + 1
  {
    forall i :: 0 <= i < |steps| - 1 && steps[i] in {FlushNow, CompactNow} && !steps[i + 1].Crash? ==> settled[i + 2] == marks[i + 1]
  }

  /** Whatever the session did, a read gives exactly the plain live rows at the mirror's watermark. The
      watermark falls in a crash only, never below what an earlier operation settled, and a flush settles
      everything delivered as soon as another operation follows it. */
  method RunSession(stream: seq<Delta>, steps: seq<SessionStep>, only: Option<set<string>>, flushEvery: nat, maxSegments: nat, t: string)
    returns (m: ArrowMirror, rows: Rows, marks: seq<nat>, settled: seq<nat>)
    requires flushEvery >= 1 && maxSegments >= 2
    requires forall i :: 0 <= i < |stream| ==> stream[i].tid == i + 1
    ensures m.watermark <= |stream| && rows == RowsOf(PlainAt(stream, m.watermark, only), t)
    ensures Settles(stream, steps, only, marks, settled) && marks[|steps|] == m.watermark
    ensures forall i :: 0 <= i <= |steps| ==> marks[i] <= settled[i] + flushEvery
  {
    hide Recovers, AllShow, Accounted, PlainAt, TypesAt, Decode, AddTypes, PlainSteps, ArrowMirror.Valid, MarkAfter, At;
    EmptyRecovers();
    ZeroContent(stream, only);
    ghost var was: Content := (0, map[], map[]);
    var floor: nat := 0;
    var dir := new MirrorDir(Disk(map[], None));
    m := new ArrowMirror(dir, only, flushEvery, maxSegments, was);
    var window: nat := 0;
    marks, settled := [m.watermark], [floor];
    assert steps[..0] == [];
    for i := 0 to |steps|
      invariant m.only == only && fresh(m) && fresh(m.dir) && InStep(m, stream, window, was) && floor == was.0
      invariant |marks| == |settled| == i + 1 && marks[i] == m.watermark && settled[i] == floor
      invariant Settles(stream, steps[..i], only, marks, settled) && m.flushEvery == flushEvery
      invariant forall j :: 0 <= j <= i ==> marks[j] <= settled[j] + flushEvery
      invariant i > 0 && steps[i - 1] in {FlushNow, CompactNow} ==> m.durable.0 == m.watermark
    {
      ghost var marks0, settled0 := marks, settled;
      if steps[i].Crash? {
        m := Reopen(m, stream, steps[i].k, window, was);
        window := 0;
        was := m.durable;
        floor := m.watermark;
      } else {
        ghost var before := m.durable;
        var last := |m.dir.trail|;
        DurableMark(m);
        floor := ManifestOf(m.dir.disk).watermark;
        Operate(m, stream, steps[i], window, was);
        window := last;
        was := before;
      }
      marks, settled := marks + [m.watermark], settled + [floor];
      SettlesNext(stream, steps, i, only, marks0, settled0, m.watermark, floor);
    }
    assert steps[..|steps|] == steps;
    rows := m.Table(t);
    RowsAt(stream, only, (m.watermark, m.types, m.plain));
  }

  lemma RowsAt(stream: seq<Delta>, only: Option<set<string>>, c: Content)
    requires At(stream, only, c)
    ensures c.0 <= |stream| && c.2 == PlainAt(stream, c.0, only)
  {
  }

  lemma DurableMark(m: ArrowMirror)
    requires m.Valid()
    ensures ManifestOf(m.dir.disk).watermark == m.durable.0
  {
  }

  lemma SettlesNext(stream: seq<Delta>, steps: seq<SessionStep>, i: nat, only: Option<set<string>>,
                    marks: seq<nat>, settled: seq<nat>, mark: nat, floor: nat)
    requires i < |steps| && Settles(stream, steps[..i], only, marks, settled)
    requires settled[i] <= floor <= mark <= |stream|
    requires if steps[i].Crash? then mark == floor else mark == MarkAfter(stream, only, marks[i], steps[i])
    requires i > 0 && steps[i - 1] in {FlushNow, CompactNow} && !steps[i].Crash? ==> floor == marks[i]
    ensures Settles(stream, steps[..i + 1], only, marks + [mark], settled + [floor])
  {
    hide MarkAfter, FlushesSettle, Bounded;
    var next := steps[..i + 1];
    assert forall j :: 0 <= j < i ==> next[j] == steps[..i][j];
    BoundedNext(|stream|, marks, settled, mark, floor);
    FlushesNext(steps, i, marks, settled, mark, floor);
  }

  lemma BoundedNext(length: nat, marks: seq<nat>, settled: seq<nat>, mark: nat, floor: nat)
    requires |marks| == |settled| > 0 && Bounded(length, marks, settled) && settled[|settled| - 1] <= floor <= mark <= length
    ensures Bounded(length, marks + [mark], settled + [floor])
  {
  }

  lemma FlushesNext(steps: seq<SessionStep>, i: nat, marks: seq<nat>, settled: seq<nat>, mark: nat, floor: nat)
    requires i < |steps| && |marks| == |settled| == i + 1 && FlushesSettle(steps[..i], marks, settled)
    requires i > 0 && steps[i - 1] in {FlushNow, CompactNow} && !steps[i].Crash? ==> floor == marks[i]
    ensures FlushesSettle(steps[..i + 1], marks + [mark], settled + [floor])
  {
    var next := steps[..i + 1];
    assert forall j :: 0 <= j < i ==> next[j] == steps[..i][j];
  }

  lemma ZeroContent(stream: seq<Delta>, only: Option<set<string>>)
    ensures At(stream, only, (0, map[], map[]))
  {
  }
}
