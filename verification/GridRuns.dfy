/** What the trial grid guarantees: gapless numbering, independent identities, one trial for every cell. */
module GridRuns {
  import opened Common
  import opened Grid

  function Start<S>(cursor: nat): State<S> {
    State(map[], [], cursor, false)
  }

  lemma RunLast<S>(env: Env<S>, st: State<S>, cells: seq<Cell>, cell: Cell)
    ensures RunCells(env, st, cells + [cell]) == RunCell(env, RunCells(env, st, cells), cell)
  {
    FoldSum(Stepper(env), st, cells, [cell]);
    FoldOne(Stepper(env), RunCells(env, st, cells), cell);
  }

  // ---- numbering -----------------------------------------------------------------------------------

  /** Records are numbered 0, 1, 2, ... in cell order, whichever way each trial ended. */
  ghost predicate Numbered(written: seq<Record>, cells: seq<Cell>) {
    |written| <= |cells| &&
    forall k :: 0 <= k < |written| ==> written[k].trialSeq == k && written[k].cell == cells[k]
  }

  /** At every moment of a run the log is numbered without gaps; a run that is not aborted has run every cell. */
  lemma {:induction false} RunIsNumbered<S>(env: Env<S>, cursor: nat, cells: seq<Cell>)
    ensures var st := RunCells(env, Start(cursor), cells);
      Numbered(st.written, cells) && (!st.aborted ==> |st.written| == |cells| && Refused !in cells)
    decreases |cells|
  {
    if cells != [] {
      var n := |cells| - 1;
      RunIsNumbered(env, cursor, cells[..n]);
      assert cells == cells[..n] + [cells[n]];
      RunLast(env, Start(cursor), cells[..n], cells[n]);
    }
  }

  // ---- independence --------------------------------------------------------------------------------

  function Is(id: Identity): Cell -> bool {
    (cell: Cell) => cell.Cell? && cell.id == id
  }

  function CellsOf(cells: seq<Cell>, id: Identity): seq<Cell> {
    Filter(Is(id), cells)
  }

  /** One trial of an identity on its own, with the fresh client of a keyed sample. */
  function Alone<S>(env: Env<S>, id: Identity): (S, Cell) -> S {
    (store: S, cell: Cell) => if cell.Cell? then env.trial(id, cell.row, store, None).store else store
  }

  ghost predicate Keyed<S>(env: Env<S>, cells: seq<Cell>) {
    forall i :: 0 <= i < |cells| && cells[i].Cell? ==> env.keyed(cells[i].row.sampleId)
  }

  lemma NoCells(id: Identity)
    ensures CellsOf([], id) == []
  {
  }

  lemma CellsOfSum(a: seq<Cell>, b: seq<Cell>, id: Identity)
    ensures CellsOf(a + b, id) == CellsOf(a, id) + CellsOf(b, id)
  {
    FilterSum(Is(id), a, b);
  }

  lemma CellsOfLast(cells: seq<Cell>, cell: Cell, id: Identity)
    ensures CellsOf(cells + [cell], id) == CellsOf(cells, id) + if Is(id)(cell) then [cell] else []
  {
    FilterSum(Is(id), cells, [cell]);
    assert [cell][1..] == [];
  }

  function StoreOf<S>(env: Env<S>, st: State<S>, id: Identity): S {
    if id in st.stores then st.stores[id] else env.start(id)
  }

  /** The final store is untouched without own trials, and else the fold of the own trials alone. */
  ghost predicate HoldsFold<S>(env: Env<S>, st: State<S>, final: State<S>, own: seq<Cell>, id: Identity) {
    StoreOf(env, final, id) == Fold(Alone(env, id), StoreOf(env, st, id), own) &&
    (id in final.stores <==> id in st.stores || own != [])
  }

  lemma IndependentStep<S>(
    env: Env<S>, st: State<S>, mid: State<S>, cell: Cell, own: seq<Cell>, id: Identity)
    requires env.stateful(id.baseline) && id.baseline != "bot_style"
    requires HoldsFold(env, st, mid, own, id) && !RunCell(env, mid, cell).aborted
    requires Is(id)(cell) ==> env.keyed(cell.row.sampleId)
    ensures HoldsFold(env, st, RunCell(env, mid, cell), own + if Is(id)(cell) then [cell] else [], id)
  {
    if Is(id)(cell) {
      FoldSum(Alone(env, id), StoreOf(env, st, id), own, [cell]);
      FoldOne(Alone(env, id), Fold(Alone(env, id), StoreOf(env, st, id), own), cell);
    } else {
      assert own + [] == own;
    }
  }

  /** The interleaved loop refines independent runs: the store of an identity is the fold of its own trials
      alone from its own starting corpus, however many other identities were served in between. */
  lemma {:induction false} IdentitiesAreIndependent<S>(
    env: Env<S>, st: State<S>, cells: seq<Cell>, id: Identity)
    requires env.stateful(id.baseline) && id.baseline != "bot_style"
    requires Keyed(env, CellsOf(cells, id)) && !RunCells(env, st, cells).aborted
    ensures HoldsFold(env, st, RunCells(env, st, cells), CellsOf(cells, id), id)
    decreases |cells|
  {
    if cells != [] {
      var n := |cells| - 1;
      var before, cell := cells[..n], cells[n];
      assert cells == before + [cell];
      RunLast(env, st, before, cell);
      CellsOfLast(before, cell, id);
      KeyedParts(env, CellsOf(before, id), cell, id);
      IdentitiesAreIndependent(env, st, before, id);
      IndependentStep(env, st, RunCells(env, st, before), cell, CellsOf(before, id), id);
    }
  }

  lemma KeyedParts<S>(env: Env<S>, own: seq<Cell>, cell: Cell, id: Identity)
    requires Keyed(env, own + if Is(id)(cell) then [cell] else [])
    ensures Keyed(env, own) && (Is(id)(cell) ==> env.keyed(cell.row.sampleId))
  {
    var more := own + if Is(id)(cell) then [cell] else [];
    forall i | 0 <= i < |own| && own[i].Cell? ensures env.keyed(own[i].row.sampleId) {
      assert more[i] == own[i];
    }
    if Is(id)(cell) {
      assert more[|own|] == cell;
    }
  }

  // ---- the cells of one identity -------------------------------------------------------------------

  ghost predicate DistinctConfig(cfg: Config) {
    Distinct(cfg.models) && Distinct(cfg.arms) && Distinct(cfg.baselines) &&
    forall i, j :: 0 <= i < j < |cfg.tasks| ==> cfg.tasks[i].name != cfg.tasks[j].name
  }

  function One(cond: bool, id: Identity, index: nat, row: Row): seq<Cell> {
    if cond then [Cell(id, index, row)] else []
  }

  lemma InPrefix<T>(s: seq<T>, n: nat, x: T)
    requires 0 < n <= |s|
    ensures x in s[..n] <==> x in s[..n - 1] || x == s[n - 1]
    ensures Distinct(s) && x == s[n - 1] ==> x !in s[..n - 1]
  {
    assert s[..n] == s[..n - 1] + [s[n - 1]];
  }

  lemma {:induction false} ArmCellsOf(
    id: Identity, t: string, b: string, arm: string, models: seq<string>, index: nat, row: Row, n: nat)
    requires n <= |models| && Distinct(models)
    ensures CellsOf(ArmCells(t, b, arm, models, index, row, n), id) ==
      One(id.task == t && id.baseline == b && id.arm == arm && id.model in models[..n], id, index, row)
  {
    if n > 0 {
      ArmCellsOf(id, t, b, arm, models, index, row, n - 1);
      CellsOfLast(
        ArmCells(t, b, arm, models, index, row, n - 1), Cell(Identity(t, b, arm, models[n - 1]), index, row), id);
      InPrefix(models, n, id.model);
    }
  }

  lemma {:induction false} BaselineCellsOf(
    id: Identity, t: string, b: string, arms: seq<string>, models: seq<string>, index: nat, row: Row, n: nat)
    requires n <= |arms| && Distinct(arms) && Distinct(models)
    ensures CellsOf(BaselineCells(t, b, arms, models, index, row, n), id) ==
      One(id.task == t && id.baseline == b && id.arm in arms[..n] && id.model in models, id, index, row)
  {
    if n > 0 {
      BaselineCellsOf(id, t, b, arms, models, index, row, n - 1);
      ArmCellsOf(id, t, b, arms[n - 1], models, index, row, |models|);
      assert models[..|models|] == models;
      CellsOfSum(BaselineCells(t, b, arms, models, index, row, n - 1),
        ArmCells(t, b, arms[n - 1], models, index, row, |models|), id);
      InPrefix(arms, n, id.arm);
    }
  }

  /** The identity belongs to the configuration; no_memory only runs the clean arm. */
  ghost predicate InGrid(cfg: Config, id: Identity) {
    id.baseline in cfg.baselines && id.arm in ValidArms(id.baseline, cfg.arms) && id.model in cfg.models
  }

  lemma {:induction false} FilterDistinct<T>(keep: T -> bool, s: seq<T>)
    requires Distinct(s)
    ensures Distinct(Filter(keep, s))
  {
    if s != [] {
      var rest := s[1..];
      assert forall i, j :: 0 <= i < j < |rest| ==> rest[i] == s[i + 1] && rest[j] == s[j + 1];
      FilterDistinct(keep, rest);
      FilterMember(keep, rest, s[0]);
      DistinctSum([s[0]], Filter(keep, rest));
    }
  }

  lemma ArmsCellsOf<S>(env: Env<S>, cfg: Config, id: Identity, t: string, b: string, index: nat, row: Row)
    requires DistinctConfig(cfg) && env.supportedBaseline(b)
    ensures CellsOf(ArmsCells(env, cfg, t, b, index, row), id) ==
      One(id.task == t && id.baseline == b && InArms(cfg, b, id), id, index, row)
  {
    var arms := ValidArms(b, cfg.arms);
    FilterDistinct((arm: string) => arm == "clean", cfg.arms);
    BaselineCellsOf(id, t, b, arms, cfg.models, index, row, |arms|);
    assert arms[..|arms|] == arms;
  }

  ghost predicate InArms(cfg: Config, b: string, id: Identity) {
    id.arm in ValidArms(b, cfg.arms) && id.model in cfg.models
  }

  ghost predicate Supported<S>(env: Env<S>, cfg: Config) {
    (forall i :: 0 <= i < |cfg.baselines| ==> env.supportedBaseline(cfg.baselines[i])) &&
    (forall i :: 0 <= i < |cfg.tasks| ==> env.supportedTask(cfg.tasks[i].name) && cfg.tasks[i].rows != [])
  }

  lemma {:induction false} RowCellsOf<S>(
    env: Env<S>, cfg: Config, id: Identity, t: string, index: nat, row: Row, n: nat)
    requires DistinctConfig(cfg) && Supported(env, cfg) && n <= |cfg.baselines|
    ensures CellsOf(RowCells(env, cfg, t, index, row, n), id) ==
      One(id.task == t && id.baseline in cfg.baselines[..n] && InArms(cfg, id.baseline, id), id, index, row)
  {
    hide ArmsCells, CellsOf;
    NoCells(id);
    if n > 0 {
      RowCellsOf(env, cfg, id, t, index, row, n - 1);
      ArmsCellsOf(env, cfg, id, t, cfg.baselines[n - 1], index, row);
      CellsOfSum(RowCells(env, cfg, t, index, row, n - 1),
        ArmsCells(env, cfg, t, cfg.baselines[n - 1], index, row), id);
      InPrefix(cfg.baselines, n, id.baseline);
    }
  }

  /** The identity's cells on the first n rows, numbered by row. */
  function Numbering(id: Identity, rows: seq<Row>, n: nat): seq<Cell>
    requires n <= |rows|
  {
    seq(n, i requires 0 <= i < n => Cell(id, i, rows[i]))
  }

  lemma {:induction false} TaskCellsOf<S>(env: Env<S>, cfg: Config, id: Identity, task: Task, n: nat)
    requires DistinctConfig(cfg) && Supported(env, cfg) && n <= |task.rows|
    ensures CellsOf(TaskCells(env, cfg, task, n), id) ==
      if id.task == task.name && InGrid(cfg, id) then Numbering(id, task.rows, n) else []
  {
    hide RowCells, CellsOf;
    NoCells(id);
    if n > 0 {
      TaskCellsOf(env, cfg, id, task, n - 1);
      RowCellsOf(env, cfg, id, task.name, n - 1, task.rows[n - 1], |cfg.baselines|);
      assert cfg.baselines[..|cfg.baselines|] == cfg.baselines;
      CellsOfSum(TaskCells(env, cfg, task, n - 1),
        RowCells(env, cfg, task.name, n - 1, task.rows[n - 1], |cfg.baselines|), id);
    }
  }

  lemma {:induction false} CellsOfOthers<S>(env: Env<S>, cfg: Config, id: Identity, n: nat)
    requires DistinctConfig(cfg) && Supported(env, cfg) && n <= |cfg.tasks|
    requires forall i :: 0 <= i < n ==> cfg.tasks[i].name != id.task
    ensures CellsOf(Cells(env, cfg, n), id) == []
  {
    hide TaskCells, CellsOf;
    NoCells(id);
    if n > 0 {
      var task := cfg.tasks[n - 1];
      CellsOfOthers(env, cfg, id, n - 1);
      TaskCellsOf(env, cfg, id, task, |task.rows|);
      CellsOfSum(Cells(env, cfg, n - 1), RowsCells(env, cfg, task), id);
    }
  }

  /** In a grid with distinct names an identity meets exactly the rows of its task, in row order. */
  lemma {:induction false} CellsOfTask<S>(env: Env<S>, cfg: Config, id: Identity, k: nat, n: nat)
    requires DistinctConfig(cfg) && Supported(env, cfg) && k < n <= |cfg.tasks|
    requires id.task == cfg.tasks[k].name && InGrid(cfg, id)
    ensures CellsOf(Cells(env, cfg, n), id) == Numbering(id, cfg.tasks[k].rows, |cfg.tasks[k].rows|)
    decreases n
  {
    hide TaskCells, CellsOf;
    var task := cfg.tasks[n - 1];
    TaskCellsOf(env, cfg, id, task, |task.rows|);
    CellsOfSum(Cells(env, cfg, n - 1), RowsCells(env, cfg, task), id);
    if k == n - 1 {
      CellsOfOthers(env, cfg, id, n - 1);
    } else {
      CellsOfTask(env, cfg, id, k, n - 1);
    }
  }

  /** After a completed run over keyed samples, each memory-writing identity holds the fold of its task's rows. */
  lemma GridRefinesIdentityRuns<S>(env: Env<S>, cfg: Config, cursor: nat, id: Identity, k: nat)
    requires DistinctConfig(cfg) && Supported(env, cfg) && k < |cfg.tasks|
    requires id.task == cfg.tasks[k].name && InGrid(cfg, id)
    requires env.stateful(id.baseline) && id.baseline != "bot_style"
    requires forall i :: 0 <= i < |cfg.tasks[k].rows| ==> env.keyed(cfg.tasks[k].rows[i].sampleId)
    requires !RunCells(env, Start(cursor), AllCells(env, cfg)).aborted
    ensures var final := RunCells(env, Start(cursor), AllCells(env, cfg));
      var rows := cfg.tasks[k].rows;
      id in final.stores &&
      final.stores[id] == Fold(Alone(env, id), env.start(id), Numbering(id, rows, |rows|))
  {
    hide Cells;
    CellsOfTask(env, cfg, id, k, |cfg.tasks|);
    IdentitiesAreIndependent(env, Start(cursor), AllCells(env, cfg), id);
  }

  // ---- how many trials -----------------------------------------------------------------------------

  /** The cells that one row contributes under the first n baselines. */
  function CellsPerRow(cfg: Config, n: nat): nat
    requires n <= |cfg.baselines|
  {
    if n == 0 then 0
    else CellsPerRow(cfg, n - 1) + Times(|ValidArms(cfg.baselines[n - 1], cfg.arms)|, |cfg.models|)
  }

  function Times(a: nat, b: nat): nat {
    if a == 0 then 0 else Times(a - 1, b) + b
  }

  function RowTotal(cfg: Config, n: nat): nat
    requires n <= |cfg.tasks|
  {
    if n == 0 then 0 else RowTotal(cfg, n - 1) + |cfg.tasks[n - 1].rows|
  }

  lemma {:induction false} ArmCellsCount(
    t: string, b: string, arm: string, models: seq<string>, index: nat, row: Row, n: nat)
    requires n <= |models|
    ensures |ArmCells(t, b, arm, models, index, row, n)| == n
  {
    if n > 0 {
      ArmCellsCount(t, b, arm, models, index, row, n - 1);
    }
  }

  lemma {:induction false} BaselineCellsCount(
    t: string, b: string, arms: seq<string>, models: seq<string>, index: nat, row: Row, n: nat)
    requires n <= |arms|
    ensures |BaselineCells(t, b, arms, models, index, row, n)| == Times(n, |models|)
  {
    if n > 0 {
      BaselineCellsCount(t, b, arms, models, index, row, n - 1);
      ArmCellsCount(t, b, arms[n - 1], models, index, row, |models|);
    }
  }

  lemma {:induction false} RowCellsCount<S>(env: Env<S>, cfg: Config, t: string, index: nat, row: Row, n: nat)
    requires Supported(env, cfg) && n <= |cfg.baselines|
    ensures |RowCells(env, cfg, t, index, row, n)| == CellsPerRow(cfg, n)
  {
    hide BaselineCells, ValidArms;
    if n > 0 {
      RowCellsCount(env, cfg, t, index, row, n - 1);
      var arms := ValidArms(cfg.baselines[n - 1], cfg.arms);
      BaselineCellsCount(t, cfg.baselines[n - 1], arms, cfg.models, index, row, |arms|);
    }
  }

  lemma {:induction false} TaskCellsCount<S>(env: Env<S>, cfg: Config, task: Task, n: nat)
    requires Supported(env, cfg) && n <= |task.rows|
    ensures |TaskCells(env, cfg, task, n)| == Times(n, CellsPerRow(cfg, |cfg.baselines|))
  {
    hide RowCells;
    if n > 0 {
      TaskCellsCount(env, cfg, task, n - 1);
      RowCellsCount(env, cfg, task.name, n - 1, task.rows[n - 1], |cfg.baselines|);
    }
  }

  lemma {:induction false} TimesSum(a: nat, b: nat, c: nat)
    ensures Times(a + b, c) == Times(a, c) + Times(b, c)
  {
    if b > 0 {
      TimesSum(a, b - 1, c);
    }
  }

  lemma {:induction false} TimesIsProduct(a: nat, b: nat)
    ensures Times(a, b) == a * b
  {
    if a > 0 {
      TimesIsProduct(a - 1, b);
      assert (a - 1) * b + b == a * b;
    }
  }

  lemma {:induction false} CellsCount<S>(env: Env<S>, cfg: Config, n: nat)
    requires Supported(env, cfg) && n <= |cfg.tasks|
    ensures |Cells(env, cfg, n)| == Times(RowTotal(cfg, n), CellsPerRow(cfg, |cfg.baselines|))
  {
    hide TaskCells;
    if n > 0 {
      CellsCount(env, cfg, n - 1);
      var task := cfg.tasks[n - 1];
      TaskCellsCount(env, cfg, task, |task.rows|);
      TimesSum(RowTotal(cfg, n - 1), |task.rows|, CellsPerRow(cfg, |cfg.baselines|));
    }
  }

  /** A completed run writes rows x (valid arms per baseline x models) trials, numbered from 0 without gaps. */
  lemma {:induction false} CompletedRunCount<S>(env: Env<S>, cfg: Config, cursor: nat)
    requires Supported(env, cfg) && !RunCells(env, Start(cursor), AllCells(env, cfg)).aborted
    ensures var written := RunCells(env, Start(cursor), AllCells(env, cfg)).written;
      |written| == RowTotal(cfg, |cfg.tasks|) * CellsPerRow(cfg, |cfg.baselines|) &&
      |written| == |AllCells(env, cfg)| && Numbered(written, AllCells(env, cfg))
  {
    hide Cells, RunCells;
    RunIsNumbered(env, cursor, AllCells(env, cfg));
    AllCellsCount(env, cfg);
  }

  lemma AllCellsCount<S>(env: Env<S>, cfg: Config)
    requires Supported(env, cfg)
    ensures |AllCells(env, cfg)| == RowTotal(cfg, |cfg.tasks|) * CellsPerRow(cfg, |cfg.baselines|)
  {
    hide Cells;
    CellsCount(env, cfg, |cfg.tasks|);
    TimesIsProduct(RowTotal(cfg, |cfg.tasks|), CellsPerRow(cfg, |cfg.baselines|));
  }

  // ---- no trial is repeated ------------------------------------------------------------------------

  lemma {:induction false} FilterDistinctBack<T>(keep: T -> bool, s: seq<T>, i: nat, j: nat)
    requires Distinct(Filter(keep, s)) && i < j < |s| && keep(s[i])
    ensures s[i] != s[j]
  {
    var rest := s[1..];
    if i == 0 {
      DistinctSum([s[0]], Filter(keep, rest));
      FilterMember(keep, rest, s[0]);
      assert rest[j - 1] == s[j] && s[0] in Elements([s[0]]);
    } else {
      if keep(s[0]) {
        DistinctSum([s[0]], Filter(keep, rest));
      }
      FilterDistinctBack(keep, rest, i - 1, j - 1);
    }
  }

  lemma {:induction false} CellsAreInGrid<S>(env: Env<S>, cfg: Config, id: Identity)
    requires DistinctConfig(cfg) && Supported(env, cfg)
    ensures CellsOf(AllCells(env, cfg), id) == [] ||
      exists k :: 0 <= k < |cfg.tasks| && id.task == cfg.tasks[k].name &&
        CellsOf(AllCells(env, cfg), id) == Numbering(id, cfg.tasks[k].rows, |cfg.tasks[k].rows|)
  {
    hide Cells, CellsOf;
    if forall k :: 0 <= k < |cfg.tasks| ==> cfg.tasks[k].name != id.task {
      CellsOfOthers(env, cfg, id, |cfg.tasks|);
    } else {
      var k :| 0 <= k < |cfg.tasks| && cfg.tasks[k].name == id.task;
      if InGrid(cfg, id) {
        CellsOfTask(env, cfg, id, k, |cfg.tasks|);
      } else {
        CellsOfOutside(env, cfg, id, |cfg.tasks|);
      }
    }
  }

  lemma {:induction false} CellsOfOutside<S>(env: Env<S>, cfg: Config, id: Identity, n: nat)
    requires DistinctConfig(cfg) && Supported(env, cfg) && n <= |cfg.tasks| && !InGrid(cfg, id)
    ensures CellsOf(Cells(env, cfg, n), id) == []
  {
    hide TaskCells, CellsOf;
    NoCells(id);
    if n > 0 {
      var task := cfg.tasks[n - 1];
      CellsOfOutside(env, cfg, id, n - 1);
      TaskCellsOf(env, cfg, id, task, |task.rows|);
      CellsOfSum(Cells(env, cfg, n - 1), RowsCells(env, cfg, task), id);
    }
  }

  lemma InNumbering(id: Identity, rows: seq<Row>, cell: Cell)
    requires cell in Numbering(id, rows, |rows|)
    ensures cell.Cell? && cell.index < |rows| && cell == Cell(id, cell.index, rows[cell.index])
  {
  }

  ghost predicate DistinctSamples(rows: seq<Row>) {
    forall i, j :: 0 <= i < j < |rows| ==> rows[i].sampleId != rows[j].sampleId
  }

  /** No two cells share identity and sample: trial ids never collide and no failure is ever a repetition. */
  lemma TrialKeysAreDistinct<S>(env: Env<S>, cfg: Config, i: nat, j: nat)
    requires DistinctConfig(cfg) && Supported(env, cfg)
    requires forall k :: 0 <= k < |cfg.tasks| ==> DistinctSamples(cfg.tasks[k].rows)
    requires i < j < |AllCells(env, cfg)| && AllCells(env, cfg)[i].Cell? && AllCells(env, cfg)[j].Cell?
    ensures var a, b := AllCells(env, cfg)[i], AllCells(env, cfg)[j];
      a.id != b.id || a.row.sampleId != b.row.sampleId
  {
    hide Cells;
    var cells := AllCells(env, cfg);
    var a, b := cells[i], cells[j];
    if a.id == b.id {
      CellsAreInGrid(env, cfg, a.id);
      FilterMember(Is(a.id), cells, a);
      FilterMember(Is(a.id), cells, b);
      var k :| 0 <= k < |cfg.tasks| && CellsOf(cells, a.id) == Numbering(a.id, cfg.tasks[k].rows, |cfg.tasks[k].rows|);
      FilterDistinctBack(Is(a.id), cells, i, j);
      InNumbering(a.id, cfg.tasks[k].rows, a);
      InNumbering(a.id, cfg.tasks[k].rows, b);
    }
  }
}
