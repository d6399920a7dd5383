/**
 The values behind the columnar mirror: segments of rows and tombstones, folded newest-wins, and the
 plain map of live rows the fold stands for.
 */
module ArrowFold {
  import opened Wire

  /** What one payload decodes to under its persisted shape. */
  datatype Row = Row(shape: Shape, payload: Bytes)
  type Rows = map<Oid, Row>
  /** A segment, or the rows not yet flushed; None is a tombstone. */
  type Cells = map<Oid, Option<Row>>
  type Files = map<(string, nat), Cells>

  datatype Table = Table(segments: seq<nat>, next: nat)
  type Tables = map<string, Table>
  datatype Manifest = Manifest(watermark: Tid, types: map<Cid, Shape>, tables: Tables)
  datatype Disk = Disk(files: Files, manifest: Option<Manifest>)

  const NO_MANIFEST := Manifest(0, map[], map[])

  function Segs(tables: Tables, t: string): seq<nat> {
    if t in tables then tables[t].segments else []
  }

  function Next(tables: Tables, t: string): nat {
    if t in tables then tables[t].next else 1
  }

  function CellsOf(m: map<string, Cells>, t: string): Cells {
    if t in m then m[t] else map[]
  }

  function RowsOf(m: map<string, Rows>, t: string): Rows {
    if t in m then m[t] else map[]
  }

  function FileAt(files: Files, t: string, n: nat): Cells {
    if (t, n) in files then files[(t, n)] else map[]
  }

  // --------------------------------------------------------------------- fold

  /** Oldest to newest; the newer row wins. */
  function Fold(parts: seq<Cells>): Cells {
    if parts == [] then map[] else Fold(parts[..|parts| - 1]) + parts[|parts| - 1]
  }

  function Live(cells: Cells): Rows {
    map o | o in cells && cells[o].Some? :: cells[o].value
  }

  function Contents(files: Files, t: string, segs: seq<nat>): seq<Cells> {
    if segs == [] then [] else Contents(files, t, segs[..|segs| - 1]) + [FileAt(files, t, segs[|segs| - 1])]
  }

  lemma {:induction false} FoldConcat(a: seq<Cells>, b: seq<Cells>)
    ensures Fold(a + b) == Fold(a) + Fold(b)
  {
    if b == [] {
      assert a + b == a;
    } else {
      assert (a + b)[..|a + b| - 1] == a + b[..|b| - 1];
      FoldConcat(a, b[..|b| - 1]);
    }
  }

  lemma FoldOne(cells: Cells)
    ensures Fold([cells]) == cells
  {
    assert [cells][..0] == [];
  }

  /** Newest-wins with a seen set, newest part first. */
  method FoldNewest(parts: seq<Cells>) returns (out: Cells)
    ensures out == Fold(parts)
  {
    hide Fold;
    NothingFolded();
    if parts == [] {
      return map[];
    }
    if |parts| == 1 {
      FoldOne(parts[0]);
      assert parts == [parts[0]];
      return parts[0];
    }
    out := map[];
    var seen: set<Oid> := {};
    var i := |parts|;
    assert parts[i..] == [];
    while i > 0
      invariant 0 <= i <= |parts| && out == Fold(parts[i..]) && seen == out.Keys
    {
      i := i - 1;
      assert parts[i..] == [parts[i]] + parts[i + 1..];
      FoldConcat([parts[i]], parts[i + 1..]);
      FoldOne(parts[i]);
      var survivors := parts[i] - seen;
      seen := seen + parts[i].Keys;
      out := survivors + out;
    }
    assert parts[0..] == parts;
  }

  lemma NothingFolded()
    ensures Fold([]) == map[]
  {
  }

  // ------------------------------------------------------------- one operation

  /** A decoded operation on a mirrored type; no row means a delete. */
  datatype MirrorOp = MirrorOp(typename: string, oid: Oid, row: Option<Row>)

  predicate Covers(only: Option<set<string>>, typename: string) {
    only.None? || typename in only.value
  }

  /** One wire operation: nothing for a type that is not mirrored, an error for a malformed one. */
  function DecodeOp(op: Op, types: map<Cid, Shape>, only: Option<set<string>>): Option<seq<MirrorOp>> {
    if !op.complete || op.kind.Unknown? || op.cid !in types then None
    else if !Covers(only, types[op.cid].typename) then Some([])
    else if op.kind.Delete? then
      if op.prior.None? then None else Some([MirrorOp(types[op.cid].typename, op.oid, None)])
    else if op.payload.None? then None
    else Some([MirrorOp(types[op.cid].typename, op.oid, Some(Row(types[op.cid], op.payload.value)))])
  }

  function Decode(ops: seq<Op>, types: map<Cid, Shape>, only: Option<set<string>>): Option<seq<MirrorOp>> {
    if ops == [] then Some([])
    else
      var front, last := Decode(ops[..|ops| - 1], types, only), DecodeOp(ops[|ops| - 1], types, only);
      if front.Some? && last.Some? then Some(front.value + last.value) else None
  }

  /** The plain map of live rows after one operation. */
  function PlainStep(plain: map<string, Rows>, op: MirrorOp): map<string, Rows> {
    plain[op.typename := if op.row.Some? then RowsOf(plain, op.typename)[op.oid := op.row.value] else RowsOf(plain, op.typename) - {op.oid}]
  }

  function PlainSteps(plain: map<string, Rows>, ops: seq<MirrorOp>): map<string, Rows> {
    if ops == [] then plain else PlainStep(PlainSteps(plain, ops[..|ops| - 1]), ops[|ops| - 1])
  }

  function Stage(pending: map<string, Cells>, op: MirrorOp): map<string, Cells> {
    pending[op.typename := CellsOf(pending, op.typename)[op.oid := op.row]]
  }

  function StageSteps(pending: map<string, Cells>, ops: seq<MirrorOp>): map<string, Cells> {
    if ops == [] then pending else Stage(StageSteps(pending, ops[..|ops| - 1]), ops[|ops| - 1])
  }

  lemma LivePut(cells: Cells, oid: Oid, row: Option<Row>)
    ensures Live(cells[oid := row]) == if row.Some? then Live(cells)[oid := row.value] else Live(cells) - {oid}
  {
  }

  /** Staging an operation moves the folded view exactly as the plain map moves. */
  lemma StageRefines(base: Cells, pending: map<string, Cells>, plain: map<string, Rows>, op: MirrorOp, t: string)
    requires Live(base + CellsOf(pending, t)) == RowsOf(plain, t)
    ensures Live(base + CellsOf(Stage(pending, op), t)) == RowsOf(PlainStep(plain, op), t)
  {
    hide Live;
    if t == op.typename {
      LivePut(base + CellsOf(pending, t), op.oid, op.row);
      assert base + CellsOf(Stage(pending, op), t) == (base + CellsOf(pending, t))[op.oid := op.row];
    }
  }

  // ------------------------------------------------------------ durable states

  ghost function DurableFold(files: Files, tables: Tables, t: string): Cells {
    Fold(Contents(files, t, Segs(tables, t)))
  }

  /** Every named segment is there, numbered below the next, once. */
  ghost predicate TableOk(files: Files, tables: Tables, t: string) {
    && (forall n :: n in Segs(tables, t) ==> (t, n) in files && n < Next(tables, t))
    && (forall i, j :: 0 <= i < j < |Segs(tables, t)| ==> Segs(tables, t)[i] != Segs(tables, t)[j])
  }

  function ManifestOf(disk: Disk): Manifest {
    if disk.manifest.Some? then disk.manifest.value else NO_MANIFEST
  }

  /** What reopening this disk would find: the watermark, the type rows, and exactly these live rows. */
  ghost predicate Recovers(disk: Disk, w: Tid, types: map<Cid, Shape>, plain: map<string, Rows>) {
    var m := ManifestOf(disk);
    m.watermark == w && m.types == types && forall t :: RecoversTable(disk.files, m.tables, plain, t)
  }

  ghost predicate RecoversTable(files: Files, tables: Tables, plain: map<string, Rows>, t: string) {
    TableOk(files, tables, t) && Live(DurableFold(files, tables, t)) == RowsOf(plain, t)
  }

  lemma {:induction false} ContentsAgree(a: Files, b: Files, t: string, segs: seq<nat>)
    requires forall n :: n in segs ==> FileAt(a, t, n) == FileAt(b, t, n)
    ensures Contents(a, t, segs) == Contents(b, t, segs)
  {
    if segs != [] {
      assert forall n :: n in segs[..|segs| - 1] ==> n in segs;
      assert segs[|segs| - 1] in segs;
      ContentsAgree(a, b, t, segs[..|segs| - 1]);
    }
  }

  /** A file the tables do not name changes nothing. */
  lemma UnnamedFile(a: Files, b: Files, tables: Tables, plain: map<string, Rows>, t: string)
    requires RecoversTable(a, tables, plain, t)
    requires forall n :: n in Segs(tables, t) ==> (t, n) in b && FileAt(b, t, n) == FileAt(a, t, n)
    ensures RecoversTable(b, tables, plain, t)
  {
    hide Fold, Live, Contents;
    ContentsAgree(a, b, t, Segs(tables, t));
  }
}
