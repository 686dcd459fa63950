/**
 The trial grid: tasks, rows, baselines, arms and models in five nested loops over shared state dictionaries.
 One method per loop level; the specification is a fold over the flat list of cells.
 */
module Grid {
  import opened Common

  datatype Row = Row(sampleId: string, body: string)

  datatype Task = Task(name: string, rows: seq<Row>)

  datatype Config = Config(tasks: seq<Task>, baselines: seq<string>, arms: seq<string>, models: seq<string>)

  datatype Identity = Identity(task: string, baseline: string, arm: string, model: string)

  /** One trial to run, or a point at which the configuration is refused and the run stops. */
  datatype Cell = Cell(id: Identity, index: nat, row: Row) | Refused

  /** How a trial left the loop body. */
  datatype Exit = Completed | OutcomeFailed | RaisedWithCalls | RaisedWithoutCalls

  datatype TrialResult<S> = TrialResult(store: S, exit: Exit, calls: nat)

  /** The trial itself is a parameter. A trial of a keyed sample gets a fresh client (None); any other trial is
      served by the shared client from its current cursor. */
  datatype Env<!S> = Env(
    supportedTask: string -> bool,
    supportedBaseline: string -> bool,
    start: Identity -> S,
    fork: (S, Identity) -> S,
    stateful: string -> bool,
    keyed: string -> bool,
    trial: (Identity, Row, S, Option<nat>) -> TrialResult<S>)

  datatype Record = Record(cell: Cell, trialSeq: nat, failed: bool)

  datatype State<S> = State(stores: map<Identity, S>, written: seq<Record>, cursor: nat, aborted: bool)

  function ValidArms(baseline: string, arms: seq<string>): seq<string> {
    if baseline == "no_memory" then Filter((arm: string) => arm == "clean", arms) else arms
  }

  // ---- the cells in loop order ---------------------------------------------------------------------

  function ArmCells(t: string, b: string, arm: string, models: seq<string>, index: nat, row: Row, n: nat): seq<Cell>
    requires n <= |models|
  {
    if n == 0 then []
    else ArmCells(t, b, arm, models, index, row, n - 1) + [Cell(Identity(t, b, arm, models[n - 1]), index, row)]
  }

  function BaselineCells(
    t: string, b: string, arms: seq<string>, models: seq<string>, index: nat, row: Row, n: nat): seq<Cell>
    requires n <= |arms|
  {
    if n == 0 then []
    else
      var arm := ArmCells(t, b, arms[n - 1], models, index, row, |models|);
      BaselineCells(t, b, arms, models, index, row, n - 1) + arm
  }

  function ArmsCells<S>(env: Env<S>, cfg: Config, t: string, b: string, index: nat, row: Row): seq<Cell> {
    var arms := ValidArms(b, cfg.arms);
    if env.supportedBaseline(b) then BaselineCells(t, b, arms, cfg.models, index, row, |arms|) else [Refused]
  }

  function RowCells<S>(env: Env<S>, cfg: Config, t: string, index: nat, row: Row, n: nat): seq<Cell>
    requires n <= |cfg.baselines|
  {
    if n == 0 then []
    else RowCells(env, cfg, t, index, row, n - 1) + ArmsCells(env, cfg, t, cfg.baselines[n - 1], index, row)
  }

  function TaskCells<S>(env: Env<S>, cfg: Config, task: Task, n: nat): seq<Cell>
    requires n <= |task.rows|
  {
    if n == 0 then []
    else
      TaskCells(env, cfg, task, n - 1) + RowCells(env, cfg, task.name, n - 1, task.rows[n - 1], |cfg.baselines|)
  }

  function RowsCells<S>(env: Env<S>, cfg: Config, task: Task): seq<Cell> {
    if !env.supportedTask(task.name) || task.rows == [] then [Refused] else TaskCells(env, cfg, task, |task.rows|)
  }

  function Cells<S>(env: Env<S>, cfg: Config, n: nat): seq<Cell>
    requires n <= |cfg.tasks|
  {
    if n == 0 then [] else Cells(env, cfg, n - 1) + RowsCells(env, cfg, cfg.tasks[n - 1])
  }

  function AllCells<S>(env: Env<S>, cfg: Config): seq<Cell> {
    Cells(env, cfg, |cfg.tasks|)
  }

  // ---- one cell ------------------------------------------------------------------------------------

  /** The store a trial starts from; a non-clean thought buffer forks from the clean one. */
  function Before<S>(env: Env<S>, stores: map<Identity, S>, id: Identity): Option<S> {
    if id in stores then Some(stores[id])
    else if id.baseline == "bot_style" && id.arm != "clean" then
      var clean := id.(arm := "clean");
      if clean in stores then Some(env.fork(stores[clean], id)) else None
    else Some(env.start(id))
  }

  function RunCell<S>(env: Env<S>, st: State<S>, cell: Cell): State<S> {
    if st.aborted then st
    else if cell.Refused? then st.(aborted := true)
    else
      match Before(env, st.stores, cell.id)
      case None => st.(aborted := true)
      case Some(store) =>
        var shared := !env.keyed(cell.row.sampleId);
        var r := env.trial(cell.id, cell.row, store, if shared then Some(st.cursor) else None);
        var stores := if env.stateful(cell.id.baseline) then st.stores[cell.id := r.store] else st.stores;
        var cursor := if shared then st.cursor + r.calls else st.cursor;
        if r.exit == RaisedWithoutCalls then State(stores, st.written, cursor, true)
        else State(stores, st.written + [Record(cell, |st.written|, r.exit != Completed)], cursor, false)
  }

  function Stepper<S>(env: Env<S>): (State<S>, Cell) -> State<S> {
    (st: State<S>, cell: Cell) => RunCell(env, st, cell)
  }

  function RunCells<S>(env: Env<S>, st: State<S>, cells: seq<Cell>): State<S> {
    Fold(Stepper(env), st, cells)
  }

  // ---- the loops -----------------------------------------------------------------------------------

  class GridRun<S(==)> {
    const env: Env<S>
    const cfg: Config
    var states: map<Identity, S>
    var written: seq<Record>
    var trialOrder: nat
    var cursor: nat
    var aborted: bool

    ghost predicate Valid()
      reads this
    {
      trialOrder == |written|
    }

    ghost function Model(): State<S>
      reads this
    {
      State(states, written, cursor, aborted)
    }

    constructor (env: Env<S>, cfg: Config)
      ensures Valid() && Model() == State(map[], [], 0, false) && this.env == env && this.cfg == cfg
    {
      this.env, this.cfg := env, cfg;
      states, written, trialOrder, cursor, aborted := map[], [], 0, 0, false;
    }

    method RunTrial(id: Identity, index: nat, row: Row)
      requires Valid() && !aborted
      modifies this
      ensures Valid() && Model() == RunCell(env, old(Model()), Cell(id, index, row))
    {
      var store := Before(env, states, id);
      if store.None? {
        aborted := true;
        return;
      }
      var client := if env.keyed(row.sampleId) then None else Some(cursor);
      var r := env.trial(id, row, store.value, client);
      if client.Some? {
        cursor := cursor + r.calls;
      }
      if env.stateful(id.baseline) {
        states := states[id := r.store];
      }
      match r.exit {
        case RaisedWithoutCalls =>
          aborted := true;
        case RaisedWithCalls =>
          written := written + [Record(Cell(id, index, row), trialOrder, true)];
          trialOrder := trialOrder + 1;
        case OutcomeFailed =>
          written := written + [Record(Cell(id, index, row), trialOrder, true)];
          trialOrder := trialOrder + 1;
        case Completed =>
          written := written + [Record(Cell(id, index, row), trialOrder, false)];
          trialOrder := trialOrder + 1;
      }
    }

    method RunModels(t: string, b: string, arm: string, index: nat, row: Row)
      requires Valid()
      modifies this
      ensures Valid()
      ensures Model() == RunCells(env, old(Model()), ArmCells(t, b, arm, cfg.models, index, row, |cfg.models|))
    {
      ghost var first := Model();
      for n := 0 to |cfg.models|
        invariant Valid()
        invariant Model() == RunCells(env, first, ArmCells(t, b, arm, cfg.models, index, row, n))
      {
        var cell := Cell(Identity(t, b, arm, cfg.models[n]), index, row);
        FoldSum(Stepper(env), first, ArmCells(t, b, arm, cfg.models, index, row, n), [cell]);
        FoldOne(Stepper(env), Model(), cell);
        if !aborted {
          RunTrial(cell.id, index, row);
        }
      }
    }

    method RunArms(t: string, b: string, index: nat, row: Row)
      requires Valid()
      modifies this
      ensures Valid()
      ensures Model() == RunCells(env, old(Model()), ArmsCells(env, cfg, t, b, index, row))
    {
      hide ArmCells;
      ghost var first := Model();
      if !env.supportedBaseline(b) {
        FoldOne(Stepper(env), first, Refused);
        aborted := true;
        return;
      }
      var arms := ValidArms(b, cfg.arms);
      for n := 0 to |arms|
        invariant Valid()
        invariant Model() == RunCells(env, first, BaselineCells(t, b, arms, cfg.models, index, row, n))
      {
        RunModels(t, b, arms[n], index, row);
        FoldSum(Stepper(env), first, BaselineCells(t, b, arms, cfg.models, index, row, n),
          ArmCells(t, b, arms[n], cfg.models, index, row, |cfg.models|));
      }
    }

    method RunBaselines(t: string, index: nat, row: Row)
      requires Valid()
      modifies this
      ensures Valid()
      ensures Model() == RunCells(env, old(Model()), RowCells(env, cfg, t, index, row, |cfg.baselines|))
    {
      hide ArmsCells;
      ghost var first := Model();
      for n := 0 to |cfg.baselines|
        invariant Valid()
        invariant Model() == RunCells(env, first, RowCells(env, cfg, t, index, row, n))
      {
        RunArms(t, cfg.baselines[n], index, row);
        FoldSum(
          Stepper(env), first, RowCells(env, cfg, t, index, row, n),
          ArmsCells(env, cfg, t, cfg.baselines[n], index, row));
      }
    }

    method RunRows(task: Task)
      requires Valid()
      modifies this
      ensures Valid()
      ensures Model() == RunCells(env, old(Model()), RowsCells(env, cfg, task))
    {
      hide RowCells;
      ghost var first := Model();
      if !env.supportedTask(task.name) || task.rows == [] {
        FoldOne(Stepper(env), first, Refused);
        aborted := true;
        return;
      }
      for n := 0 to |task.rows|
        invariant Valid()
        invariant Model() == RunCells(env, first, TaskCells(env, cfg, task, n))
      {
        RunBaselines(task.name, n, task.rows[n]);
        FoldSum(Stepper(env), first, TaskCells(env, cfg, task, n),
          RowCells(env, cfg, task.name, n, task.rows[n], |cfg.baselines|));
      }
    }

    /** The whole run is the fold of the trial over the cells in loop order. */
    method Run()
      requires Valid()
      modifies this
      ensures Valid()
      ensures Model() == RunCells(env, old(Model()), AllCells(env, cfg))
    {
      hide RowsCells;
      ghost var first := Model();
      for n := 0 to |cfg.tasks|
        invariant Valid()
        invariant Model() == RunCells(env, first, Cells(env, cfg, n))
      {
        RunRows(cfg.tasks[n]);
        FoldSum(Stepper(env), first, Cells(env, cfg, n), RowsCells(env, cfg, cfg.tasks[n]));
      }
    }
  }
}
