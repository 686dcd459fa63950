/** In which order the grid runs its cells, which cells there are, and where a run stops. */
module GridOrder {
  import opened Common
  import opened Grid
  import opened GridRuns

  // ---- the loop order ------------------------------------------------------------------------------

  /** The positions of the five nested loops. */
  datatype Place = Place(task: nat, row: nat, baseline: nat, arm: nat, model: nat)

  /** The outermost loop that differs decides. */
  predicate Earlier(p: Place, q: Place) {
    p.task < q.task || (p.task == q.task && (
    p.row < q.row || (p.row == q.row && (
    p.baseline < q.baseline || (p.baseline == q.baseline && (
    p.arm < q.arm || (p.arm == q.arm && p.model < q.model)))))))
  }

  /** The loops reach this place. */
  ghost predicate InLoops(cfg: Config, p: Place) {
    && p.task < |cfg.tasks| && p.row < |cfg.tasks[p.task].rows| && p.baseline < |cfg.baselines|
    && p.arm < |ValidArms(cfg.baselines[p.baseline], cfg.arms)| && p.model < |cfg.models|
  }

  ghost function CellAt(cfg: Config, p: Place): Cell
    requires InLoops(cfg, p)
  {
    var task, baseline := cfg.tasks[p.task], cfg.baselines[p.baseline];
    Cell(
      Identity(task.name, baseline, ValidArms(baseline, cfg.arms)[p.arm], cfg.models[p.model]), p.row,
      task.rows[p.row])
  }

  /** The cells are those of the places, which are listed in loop order. */
  ghost predicate Listing(cfg: Config, cells: seq<Cell>, places: seq<Place>) {
    |cells| == |places| &&
    (forall i :: 0 <= i < |cells| ==> InLoops(cfg, places[i]) && cells[i] == CellAt(cfg, places[i])) &&
    forall i, j :: 0 <= i < j < |places| ==> Earlier(places[i], places[j])
  }

  lemma ListingSum(cfg: Config, a: seq<Cell>, p: seq<Place>, b: seq<Cell>, q: seq<Place>)
    requires Listing(cfg, a, p) && Listing(cfg, b, q)
    requires forall x, y :: x in p && y in q ==> Earlier(x, y)
    ensures Listing(cfg, a + b, p + q)
  {
    hide InLoops, CellAt, Earlier;
    forall i, j | 0 <= i < j < |p + q| ensures Earlier((p + q)[i], (p + q)[j]) {
      if i < |p| <= j {
        assert p[i] in p && q[j - |p|] in q;
      }
    }
  }

  /** The places under fixed outer positions whose inner positions are below n. */
  lemma {:induction false} ArmPlaces(cfg: Config, outer: Place, n: nat) returns (places: seq<Place>)
    requires outer.task < |cfg.tasks| && outer.row < |cfg.tasks[outer.task].rows| && outer.baseline < |cfg.baselines|
    requires outer.arm < |ValidArms(cfg.baselines[outer.baseline], cfg.arms)| && n <= |cfg.models|
    ensures var task, baseline := cfg.tasks[outer.task], cfg.baselines[outer.baseline];
      Listing(
        cfg,
        ArmCells(
          task.name, baseline, ValidArms(baseline, cfg.arms)[outer.arm], cfg.models, outer.row, task.rows[outer.row],
          n),
        places)
    ensures forall p :: p in places <==> p.model < n && p == outer.(model := p.model)
  {
    hide ValidArms;
    if n == 0 {
      places := [];
    } else {
      var before := ArmPlaces(cfg, outer, n - 1);
      var last := outer.(model := n - 1);
      ListingSum(
        cfg, ArmCells(
          cfg.tasks[outer.task].name, cfg.baselines[outer.baseline],
          ValidArms(cfg.baselines[outer.baseline], cfg.arms)[outer.arm], cfg.models, outer.row,
          cfg.tasks[outer.task].rows[outer.row], n - 1),
        before, [CellAt(cfg, last)], [last]);
      places := before + [last];
    }
  }

  lemma {:induction false} BaselinePlaces(cfg: Config, outer: Place, n: nat) returns (places: seq<Place>)
    requires outer.task < |cfg.tasks| && outer.row < |cfg.tasks[outer.task].rows| && outer.baseline < |cfg.baselines|
    requires n <= |ValidArms(cfg.baselines[outer.baseline], cfg.arms)|
    ensures var task, baseline := cfg.tasks[outer.task], cfg.baselines[outer.baseline];
      Listing(
        cfg,
        BaselineCells(
          task.name, baseline, ValidArms(baseline, cfg.arms), cfg.models, outer.row, task.rows[outer.row], n),
        places)
    ensures forall p :: p in places <==>
      p.arm < n && p.model < |cfg.models| && p == outer.(arm := p.arm, model := p.model)
  {
    hide ValidArms, ArmCells, InLoops, CellAt;
    if n == 0 {
      places := [];
    } else {
      var task, baseline := cfg.tasks[outer.task], cfg.baselines[outer.baseline];
      var arms := ValidArms(baseline, cfg.arms);
      var before := BaselinePlaces(cfg, outer, n - 1);
      var last := ArmPlaces(cfg, outer.(arm := n - 1), |cfg.models|);
      ListingSum(
        cfg, BaselineCells(task.name, baseline, arms, cfg.models, outer.row, task.rows[outer.row], n - 1), before,
        ArmCells(task.name, baseline, arms[n - 1], cfg.models, outer.row, task.rows[outer.row], |cfg.models|), last);
      places := before + last;
    }
  }

  lemma {:induction false} RowPlaces<S>(env: Env<S>, cfg: Config, t: nat, r: nat, n: nat) returns (places: seq<Place>)
    requires Supported(env, cfg) && t < |cfg.tasks| && r < |cfg.tasks[t].rows| && n <= |cfg.baselines|
    ensures Listing(cfg, RowCells(env, cfg, cfg.tasks[t].name, r, cfg.tasks[t].rows[r], n), places)
    ensures forall p :: p in places <==> InLoops(cfg, p) && p.task == t && p.row == r && p.baseline < n
  {
    hide BaselineCells, ValidArms, CellAt;
    if n == 0 {
      places := [];
    } else {
      var before := RowPlaces(env, cfg, t, r, n - 1);
      var arms := |ValidArms(cfg.baselines[n - 1], cfg.arms)|;
      var last := BaselinePlaces(cfg, Place(t, r, n - 1, 0, 0), arms);
      ListingSum(
        cfg, RowCells(env, cfg, cfg.tasks[t].name, r, cfg.tasks[t].rows[r], n - 1), before,
        ArmsCells(env, cfg, cfg.tasks[t].name, cfg.baselines[n - 1], r, cfg.tasks[t].rows[r]), last);
      places := before + last;
    }
  }

  lemma {:induction false} TaskPlaces<S>(env: Env<S>, cfg: Config, t: nat, n: nat) returns (places: seq<Place>)
    requires Supported(env, cfg) && t < |cfg.tasks| && n <= |cfg.tasks[t].rows|
    ensures Listing(cfg, TaskCells(env, cfg, cfg.tasks[t], n), places)
    ensures forall p :: p in places <==> InLoops(cfg, p) && p.task == t && p.row < n
  {
    hide RowCells, CellAt, Listing;
    if n == 0 {
      places := [];
      NoListing(cfg);
    } else {
      var before := TaskPlaces(env, cfg, t, n - 1);
      var last := RowPlaces(env, cfg, t, n - 1, |cfg.baselines|);
      ListingSum(
        cfg, TaskCells(env, cfg, cfg.tasks[t], n - 1), before,
        RowCells(env, cfg, cfg.tasks[t].name, n - 1, cfg.tasks[t].rows[n - 1], |cfg.baselines|), last);
      places := before + last;
    }
  }

  lemma NoListing(cfg: Config)
    ensures Listing(cfg, [], [])
  {
  }

  lemma {:induction false} TasksPlaces<S>(env: Env<S>, cfg: Config, n: nat) returns (places: seq<Place>)
    requires Supported(env, cfg) && n <= |cfg.tasks|
    ensures Listing(cfg, Cells(env, cfg, n), places)
    ensures forall p :: p in places <==> InLoops(cfg, p) && p.task < n
  {
    hide TaskCells, CellAt, Listing;
    if n == 0 {
      places := [];
      NoListing(cfg);
    } else {
      var before := TasksPlaces(env, cfg, n - 1);
      var last := TaskPlaces(env, cfg, n - 1, |cfg.tasks[n - 1].rows|);
      ListingSum(cfg, Cells(env, cfg, n - 1), before, RowsCells(env, cfg, cfg.tasks[n - 1]), last);
      places := before + last;
    }
  }

  /** The cells are one for every combination of positions of the five loops, in the order of the loops: tasks
      outermost, then rows, baselines, arms and models. */
  lemma LoopOrder<S>(env: Env<S>, cfg: Config) returns (places: seq<Place>)
    requires Supported(env, cfg)
    ensures Listing(cfg, AllCells(env, cfg), places)
    ensures forall p :: p in places <==> InLoops(cfg, p)
  {
    hide Cells, Listing, InLoops;
    places := TasksPlaces(env, cfg, |cfg.tasks|);
    forall p | InLoops(cfg, p) ensures p.task < |cfg.tasks| {
      InLoopsTask(cfg, p);
    }
  }

  lemma InLoopsTask(cfg: Config, p: Place)
    ensures InLoops(cfg, p) ==> p.task < |cfg.tasks|
  {
  }

  /** An identity is run on every row of its task exactly when the configuration names it and, for no_memory, its arm is
      clean. */
  lemma IdentityIsRunIff<S>(env: Env<S>, cfg: Config, id: Identity, k: nat)
    requires DistinctConfig(cfg) && Supported(env, cfg) && k < |cfg.tasks| && id.task == cfg.tasks[k].name
    ensures CellsOf(AllCells(env, cfg), id) ==
      if id.baseline in cfg.baselines && id.arm in cfg.arms && id.model in cfg.models &&
        (id.baseline == "no_memory" ==> id.arm == "clean")
      then seq(|cfg.tasks[k].rows|, i requires 0 <= i < |cfg.tasks[k].rows| => Cell(id, i, cfg.tasks[k].rows[i]))
      else []
  {
    hide Cells, CellsOf;
    FilterMember((arm: string) => arm == "clean", cfg.arms, id.arm);
    if InGrid(cfg, id) {
      CellsOfTask(env, cfg, id, k, |cfg.tasks|);
    } else {
      CellsOfOutside(env, cfg, id, |cfg.tasks|);
    }
  }

  // ---- refused configurations ----------------------------------------------------------------------

  lemma {:induction false} NoneRefused(
    t: string, b: string, arms: seq<string>, models: seq<string>, index: nat, row: Row, n: nat)
    requires n <= |arms|
    ensures Refused !in BaselineCells(t, b, arms, models, index, row, n)
  {
    hide ArmCells;
    if n > 0 {
      NoneRefused(t, b, arms, models, index, row, n - 1);
      NoneRefusedInArm(t, b, arms[n - 1], models, index, row, |models|);
    }
  }

  lemma {:induction false} NoneRefusedInArm(
    t: string, b: string, arm: string, models: seq<string>, index: nat, row: Row, n: nat)
    requires n <= |models|
    ensures Refused !in ArmCells(t, b, arm, models, index, row, n)
  {
    if n > 0 {
      NoneRefusedInArm(t, b, arm, models, index, row, n - 1);
    }
  }

  lemma {:induction false} RowRefusedIff<S>(env: Env<S>, cfg: Config, t: string, index: nat, row: Row, n: nat)
    requires n <= |cfg.baselines|
    ensures Refused in RowCells(env, cfg, t, index, row, n) <==>
      exists i :: 0 <= i < n && !env.supportedBaseline(cfg.baselines[i])
  {
    hide BaselineCells, ValidArms;
    if n > 0 {
      RowRefusedIff(env, cfg, t, index, row, n - 1);
      var b := cfg.baselines[n - 1];
      NoneRefused(t, b, ValidArms(b, cfg.arms), cfg.models, index, row, |ValidArms(b, cfg.arms)|);
    }
  }

  lemma {:induction false} TaskRefusedIff<S>(env: Env<S>, cfg: Config, task: Task, n: nat)
    requires n <= |task.rows|
    ensures Refused in TaskCells(env, cfg, task, n) <==>
      n > 0 && exists b :: b in cfg.baselines && !env.supportedBaseline(b)
  {
    hide RowCells;
    if n > 0 {
      TaskRefusedIff(env, cfg, task, n - 1);
      RowRefusedIff(env, cfg, task.name, n - 1, task.rows[n - 1], |cfg.baselines|);
    }
  }

  /** A configuration is refused somewhere in its run exactly when it has a task that is unknown or has no rows, or that
      would run an unknown baseline. */
  lemma {:induction false} RefusedIff<S>(env: Env<S>, cfg: Config, n: nat)
    requires n <= |cfg.tasks|
    ensures Refused in Cells(env, cfg, n) <==>
      exists k :: 0 <= k < n && (
        !env.supportedTask(cfg.tasks[k].name) || cfg.tasks[k].rows == [] ||
        exists b :: b in cfg.baselines && !env.supportedBaseline(b))
  {
    hide TaskCells;
    if n > 0 {
      RefusedIff(env, cfg, n - 1);
      TaskRefusedIff(env, cfg, cfg.tasks[n - 1], |cfg.tasks[n - 1].rows|);
    }
  }

  // ---- where a run stops ---------------------------------------------------------------------------

  /** There is nothing to run: the configuration is refused here, or a thought buffer has no clean one to fork from. */
  ghost predicate Blocked<S>(stores: map<Identity, S>, cell: Cell) {
    cell.Refused? ||
    (cell.id !in stores && cell.id.baseline == "bot_style" && cell.id.arm != "clean" &&
     cell.id.(arm := "clean") !in stores)
  }

  /** What the trial of a cell returns: it gets the identity's store, or a new one, and the shared cursor unless its
      sample is keyed. */
  ghost function ResultOf<S>(env: Env<S>, stores: map<Identity, S>, cursor: nat, cell: Cell): TrialResult<S>
    requires !Blocked(stores, cell)
  {
    var id := cell.id;
    var store :=
      if id in stores then stores[id]
      else if id.baseline == "bot_style" && id.arm != "clean" then env.fork(stores[id.(arm := "clean")], id)
      else env.start(id);
    env.trial(id, cell.row, store, if env.keyed(cell.row.sampleId) then None else Some(cursor))
  }

  /** Running stops at this cell. */
  ghost predicate Stops<S>(env: Env<S>, st: State<S>, cell: Cell) {
    !st.aborted &&
    (Blocked(st.stores, cell) || ResultOf(env, st.stores, st.cursor, cell).exit == RaisedWithoutCalls)
  }

  /** A run is aborted exactly when it comes to a refused cell, to a fork without its clean buffer, or to a trial that
      raises without calls; failed trials and trials that raise after a call do not stop it. */
  lemma {:induction false} AbortsIff<S>(env: Env<S>, cursor: nat, cells: seq<Cell>)
    ensures RunCells(env, Start(cursor), cells).aborted <==>
      exists k :: 0 <= k < |cells| && Stops(env, RunCells(env, Start(cursor), cells[..k]), cells[k])
    decreases |cells|
  {
    hide Stops;
    if cells != [] {
      var n := |cells| - 1;
      var before := cells[..n];
      AbortsIff(env, cursor, before);
      assert cells == before + [cells[n]];
      RunLast(env, Start(cursor), before, cells[n]);
      StopIsAbort(env, RunCells(env, Start(cursor), before), cells[n]);
      forall k | 0 <= k < n ensures cells[..k] == before[..k] && cells[k] == before[k] {}
    }
  }

  lemma StopIsAbort<S>(env: Env<S>, st: State<S>, cell: Cell)
    ensures RunCell(env, st, cell).aborted <==> st.aborted || Stops(env, st, cell)
  {
  }

  /** Record k is that of cell k; it is marked failed exactly when the trial of that cell did not complete, and later
      cells never touch it. */
  lemma {:induction false} FailedIff<S>(env: Env<S>, cursor: nat, cells: seq<Cell>, k: nat)
    requires k < |RunCells(env, Start(cursor), cells).written|
    ensures k < |cells|
    ensures
      var st, record := RunCells(env, Start(cursor), cells[..k]), RunCells(env, Start(cursor), cells).written[k];
      !Blocked(st.stores, cells[k]) && record.cell == cells[k] &&
      (record.failed <==> ResultOf(env, st.stores, st.cursor, cells[k]).exit != Completed)
    decreases |cells|
  {
    hide ResultOf, Blocked;
    RunIsNumbered(env, cursor, cells);
    var n := |cells| - 1;
    var before, cell := cells[..n], cells[n];
    var st := RunCells(env, Start(cursor), before);
    assert cells == before + [cell];
    RunLast(env, Start(cursor), before, cell);
    RunIsNumbered(env, cursor, before);
    OneRecord(env, st, cell);
    if k < |st.written| {
      FailedIff(env, cursor, before, k);
      assert before[..k] == cells[..k];
    }
  }

  lemma OneRecord<S>(env: Env<S>, st: State<S>, cell: Cell)
    ensures var next := RunCell(env, st, cell);
      next.written == st.written ||
      (!st.aborted && !Blocked(st.stores, cell) && |next.written| == |st.written| + 1 && st.written <= next.written &&
       (next.written[|st.written|].failed <==> ResultOf(env, st.stores, st.cursor, cell).exit != Completed))
  {
  }

  /** The shared cursor moves by the calls of the trials whose samples are not keyed, and the store of a stateful
      identity is what its last trial left. */
  lemma OneCell<S>(env: Env<S>, st: State<S>, cell: Cell, id: Identity)
    requires !st.aborted && !Blocked(st.stores, cell)
    ensures
      var next, r := RunCell(env, st, cell), ResultOf(env, st.stores, st.cursor, cell);
      && next.cursor - st.cursor == (if env.keyed(cell.row.sampleId) then 0 else r.calls)
      && (id == cell.id && env.stateful(id.baseline) ==> id in next.stores && next.stores[id] == r.store)
      && (id != cell.id || !env.stateful(id.baseline) ==>
          (id in next.stores <==> id in st.stores) && (id in st.stores ==> next.stores[id] == st.stores[id]))
  {
  }

  lemma {:induction false} RanIsStored<S>(env: Env<S>, cursor: nat, cells: seq<Cell>, j: nat)
    requires j < |cells| && !RunCells(env, Start(cursor), cells).aborted
    requires cells[j].Cell? && env.stateful(cells[j].id.baseline)
    ensures cells[j].id in RunCells(env, Start(cursor), cells).stores
    decreases |cells|
  {
    var n := |cells| - 1;
    assert cells == cells[..n] + [cells[n]];
    RunLast(env, Start(cursor), cells[..n], cells[n]);
    if j < n {
      RanIsStored(env, cursor, cells[..n], j);
    }
  }

  /** Where the clean arm is listed first, the clean cell of an identity comes before its other cells. */
  lemma CleanComesFirst<S>(env: Env<S>, cfg: Config, k: nat) returns (j: nat)
    requires Supported(env, cfg) && cfg.arms != [] && cfg.arms[0] == "clean" && k < |AllCells(env, cfg)|
    requires AllCells(env, cfg)[k].Cell? && AllCells(env, cfg)[k].id.baseline == "bot_style"
    requires AllCells(env, cfg)[k].id.arm != "clean"
    ensures j < k && AllCells(env, cfg)[j].Cell?
    ensures AllCells(env, cfg)[j].id == AllCells(env, cfg)[k].id.(arm := "clean")
  {
    hide AllCells, Supported;
    var places := LoopOrder(env, cfg);
    var clean := places[k].(arm := 0);
    assert places[k] in places && InLoops(cfg, clean);
    j :| 0 <= j < |places| && places[j] == clean;
  }

  /** A supported grid whose first arm is clean is never aborted, whatever its trials store and however many of them
      fail, as long as none raises before its first call; it then logs every cell. */
  lemma {:induction false} GridCompletes<S>(env: Env<S>, cfg: Config, cursor: nat)
    requires Supported(env, cfg) && cfg.arms != [] && cfg.arms[0] == "clean" && env.stateful("bot_style")
    requires forall id, row, store, client :: env.trial(id, row, store, client).exit != RaisedWithoutCalls
    ensures var final := RunCells(env, Start(cursor), AllCells(env, cfg));
      !final.aborted && |final.written| == |AllCells(env, cfg)|
  {
    hide AllCells, RunCells, Supported;
    var cells := AllCells(env, cfg);
    AbortsIff(env, cursor, cells);
    RunIsNumbered(env, cursor, cells);
    forall k | 0 <= k < |cells| ensures !Stops(env, RunCells(env, Start(cursor), cells[..k]), cells[k]) {
      CellIsServed(env, cfg, cursor, k);
      NoStopWhenServed(env, RunCells(env, Start(cursor), cells[..k]), cells[k]);
    }
  }

  lemma NoStopWhenServed<S>(env: Env<S>, st: State<S>, cell: Cell)
    requires forall id, row, store, client :: env.trial(id, row, store, client).exit != RaisedWithoutCalls
    requires st.aborted || !Blocked(st.stores, cell)
    ensures !Stops(env, st, cell)
  {
    if !Blocked(st.stores, cell) {
      var store := Before(env, st.stores, cell.id).value;
      var client := if env.keyed(cell.row.sampleId) then None else Some(st.cursor);
      assert env.trial(cell.id, cell.row, store, client).exit != RaisedWithoutCalls;
    }
  }

  lemma CellIsServed<S>(env: Env<S>, cfg: Config, cursor: nat, k: nat)
    requires Supported(env, cfg) && cfg.arms != [] && cfg.arms[0] == "clean" && env.stateful("bot_style")
    requires k < |AllCells(env, cfg)|
    ensures var st := RunCells(env, Start(cursor), AllCells(env, cfg)[..k]);
      st.aborted || !Blocked(st.stores, AllCells(env, cfg)[k])
  {
    hide AllCells, RunCells, Supported;
    var cells := AllCells(env, cfg);
    var places := LoopOrder(env, cfg);
    var st := RunCells(env, Start(cursor), cells[..k]);
    if !st.aborted && cells[k].id.baseline == "bot_style" && cells[k].id.arm != "clean" {
      var j := CleanComesFirst(env, cfg, k);
      RanIsStored(env, cursor, cells[..k], j);
    }
  }
}
