/**
 * Relational plans: their column analyses as the operators implement them, and
 * their meaning as lists of rows.
 */
module RelAlgPlan {
  import opened Options

  type Column = nat

  datatype Val = Null | Bool(b: bool) | Num(n: int)

  /** A tuple.  Rows keep the columns that an operator hides; expressions never see those. */
  type Row = map<Column, Val>

  datatype Expr =
    | GetColumn(c: Column)
    | Constant(v: Val)
    | CmpEq(left: Expr, right: Expr)
    | Call(code: nat, args: seq<Expr>)

  datatype Aggregate = Aggregate(col: Column, code: nat, arg: Column)

  datatype JoinKind =
    | Inner
    | Semi
    | AntiSemi
    | Mark(mark: Column)
    | Outer(mapping: seq<(Column, Column)>)

  datatype Plan =
    | BaseTable(table: string, columns: seq<(string, Column)>, present: bool, primaryKey: seq<string>)
    | Selection(child: Plan, pred: Expr)
    | MapOp(child: Plan, computed: seq<(Column, Expr)>)
    | CrossProduct(left: Plan, right: Plan)
    | Join(kind: JoinKind, left: Plan, right: Plan, pred: Expr,
           leftHash: Option<seq<Column>>, rightHash: Option<seq<Column>>)
    | Aggregation(child: Plan, groupBy: seq<Column>, aggregates: seq<Aggregate>)
    | Projection(child: Plan, distinct: bool, cols: seq<Column>)
    | Renaming(child: Plan, renames: seq<(Column, Column)>)

  predicate Binary(p: Plan) {
    p.CrossProduct? || p.Join?
  }

  // ---- Column analyses, operator by operator ----------------------------------------

  function ColumnSet(cs: seq<Column>): set<Column> {
    set c | c in cs
  }

  function Firsts<T(==)>(ps: seq<(Column, T)>): set<Column> {
    set p | p in ps :: p.0
  }

  function Seconds<T(==)>(ps: seq<(T, Column)>): set<Column> {
    set p | p in ps :: p.1
  }

  function Used(e: Expr): set<Column> {
    match e
    case GetColumn(c) => {c}
    case Constant(_) => {}
    case CmpEq(l, r) => Used(l) + Used(r)
    case Call(_, args) => set c, i | 0 <= i < |args| && c in Used(args[i]) :: c
  }

  function UsedAll(ps: seq<(Column, Expr)>): set<Column> {
    set c, p | p in ps && c in Used(p.1) :: c
  }

  function HashColumns(h: Option<seq<Column>>): set<Column> {
    match h case None => {} case Some(cs) => ColumnSet(cs)
  }

  /** getCreatedColumns */
  function Created(p: Plan): set<Column> {
    match p
    case BaseTable(_, columns, _, _) => Seconds(columns)
    case Selection(_, _) => {}
    case MapOp(_, computed) => Firsts(computed)
    case CrossProduct(_, _) => {}
    case Join(kind, _, _, _, _, _) => CreatedByJoin(kind)
    case Aggregation(_, _, aggregates) => set a | a in aggregates :: a.col
    case Projection(_, _, _) => {}
    case Renaming(_, columns) => Firsts(columns)
  }

  function CreatedByJoin(kind: JoinKind): set<Column> {
    match kind
    case Mark(m) => {m}
    case Outer(mapping) => Firsts(mapping)
    case _ => {}
  }

  /** getUsedColumns */
  function UsedBy(p: Plan): set<Column> {
    match p
    case BaseTable(_, _, _, _) => {}
    case Selection(_, pred) => Used(pred)
    case MapOp(_, computed) => UsedAll(computed)
    case CrossProduct(_, _) => {}
    case Join(kind, _, _, pred, lh, rh) =>
      Used(pred) + HashColumns(lh) + HashColumns(rh) + (if kind.Outer? then Seconds(kind.mapping) else {})
    case Aggregation(_, groupBy, aggregates) => ColumnSet(groupBy) + (set a | a in aggregates :: a.arg)
    case Projection(_, distinct, cols) => if distinct then ColumnSet(cols) else {}
    case Renaming(_, columns) => Seconds(columns)
  }

  /** getAvailableColumns.  Semi, anti-semi and mark joins call the generic analysis on their left
      input, whatever operator that is. */
  function Available(p: Plan): set<Column>
    decreases p, 2
  {
    match p
    case Join(Semi, l, _, _, _, _) => AvailableByDefault(l)
    case Join(AntiSemi, l, _, _, _, _) => AvailableByDefault(l)
    case Join(Mark(m), l, _, _, _, _) => AvailableByDefault(l) + {m}
    case Join(Outer(mapping), l, _, _, _, _) => Available(l) + Firsts(mapping)
    case Aggregation(_, groupBy, _) => Created(p) + ColumnSet(groupBy)
    case Projection(_, _, cols) => ColumnSet(cols)
    case Renaming(child, columns) => Available(child) - UsedBy(p) + Created(p)
    case _ => AvailableByDefault(p)
  }

  /** detail::getAvailableColumns */
  function AvailableByDefault(p: Plan): set<Column>
    decreases p, 1
  {
    AvailableBelow(p) + Created(p)
  }

  /** The available columns of the inputs. */
  function AvailableBelow(p: Plan): set<Column>
    decreases p, 0
  {
    match p
    case BaseTable(_, _, _, _) => {}
    case CrossProduct(l, r) => Available(l) + Available(r)
    case Join(_, l, r, _, _, _) => Available(l) + Available(r)
    case _ => Available(p.child)
  }

  /** getFreeColumns */
  function Free(p: Plan): set<Column> {
    match p
    case BaseTable(_, _, _, _) => {}
    case CrossProduct(l, r) => Free(l) + Free(r) - AvailableBelow(p)
    case Join(_, l, r, _, _, _) => Free(l) + Free(r) + UsedBy(p) - AvailableBelow(p)
    case _ => Free(p.child) + UsedBy(p) - AvailableBelow(p)
  }

  /** isDependentJoin, which only concerns joins, not cross products. */
  predicate IsDependentJoin(p: Plan) {
    p.Join? && (Free(p.left) * Available(p.right) != {} || Free(p.right) * Available(p.left) != {})
  }

  /** The columns an operator really outputs. */
  function Output(p: Plan): set<Column> {
    match p
    case BaseTable(_, _, _, _) => Created(p)
    case Selection(child, _) => Output(child)
    case MapOp(child, _) => Output(child) + Created(p)
    case CrossProduct(l, r) => Output(l) + Output(r)
    case Join(Inner, l, r, _, _, _) => Output(l) + Output(r)
    case Join(_, l, _, _, _, _) => Output(l) + Created(p)
    case Aggregation(child, groupBy, _) => Output(child) * ColumnSet(groupBy) + Created(p)
    case Projection(child, _, cols) => Output(child) * ColumnSet(cols)
    case Renaming(child, _) => Output(child) - UsedBy(p) + Created(p)
  }

  /** Every column created anywhere in the plan. */
  function CreatedWithin(p: Plan): set<Column> {
    match p
    case BaseTable(_, _, _, _) => Created(p)
    case CrossProduct(l, r) => CreatedWithin(l) + CreatedWithin(r)
    case Join(_, l, r, _, _, _) => CreatedWithin(l) + CreatedWithin(r) + Created(p)
    case _ => CreatedWithin(p.child) + Created(p)
  }

  // ---- Meaning ------------------------------------------------------------------------

  /** The database and the functions that expressions and aggregates call. */
  datatype World = World(
    db: map<string, seq<map<string, Val>>>,
    call: (nat, seq<Val>) -> Val,
    aggregate: (nat, seq<Val>) -> Val)

  function Get(t: Row, c: Column): Val {
    if c in t then t[c] else Null
  }

  function Visible(t: Row, cs: set<Column>): Row {
    map c | c in t && c in cs :: t[c]
  }

  function Eval(w: World, e: Expr, t: Row): Val {
    match e
    case GetColumn(c) => Get(t, c)
    case Constant(v) => v
    case CmpEq(l, r) =>
      var x, y := Eval(w, l, t), Eval(w, r, t);
      if x == Null || y == Null then Null else Bool(x == y)
    case Call(code, args) =>
      w.call(code, seq(|args|, i requires 0 <= i < |args| => Eval(w, args[i], t)))
  }

  predicate Holds(w: World, e: Expr, t: Row) {
    Eval(w, e, t) == Bool(true)
  }

  function Field(rec: map<string, Val>, name: string): Val {
    if name in rec then rec[name] else Null
  }

  function BaseRow(columns: seq<(string, Column)>, rec: map<string, Val>): Row {
    if columns == [] then map[]
    else BaseRow(columns[1..], rec)[columns[0].1 := Field(rec, columns[0].0)]
  }

  function BaseRows(columns: seq<(string, Column)>, recs: seq<map<string, Val>>): seq<Row> {
    if recs == [] then [] else [BaseRow(columns, recs[0])] + BaseRows(columns, recs[1..])
  }

  function Filter(w: World, pred: Expr, rows: seq<Row>, o: Row, vis: set<Column>): seq<Row> {
    if rows == [] then []
    else
      (if Holds(w, pred, o + Visible(rows[0], vis)) then [rows[0]] else []) +
      Filter(w, pred, rows[1..], o, vis)
  }

  /** All values are computed from the incoming tuple t. */
  function Compute(w: World, computed: seq<(Column, Expr)>, t: Row, row: Row): Row
    decreases |computed|
  {
    if computed == [] then row
    else Compute(w, computed[1..], t, row[computed[0].0 := Eval(w, computed[0].1, t)])
  }

  function MapRows(w: World, computed: seq<(Column, Expr)>, rows: seq<Row>, o: Row, vis: set<Column>): seq<Row> {
    if rows == [] then []
    else
      [Compute(w, computed, o + Visible(rows[0], vis), rows[0])] + MapRows(w, computed, rows[1..], o, vis)
  }

  /** The rows of the right input that go with the tuple t of the left one. */
  function Matches(w: World, pred: Expr, rights: seq<Row>, t: Row, vis: set<Column>): seq<Row> {
    if rights == [] then []
    else
      (if Holds(w, pred, t + Visible(rights[0], vis)) then [rights[0]] else []) +
      Matches(w, pred, rights[1..], t, vis)
  }

  function Pair(l: Row, rights: seq<Row>): seq<Row> {
    if rights == [] then [] else [l + rights[0]] + Pair(l, rights[1..])
  }

  /** The columns an outer join adds, read from the matching right tuple, or null. */
  function Mapped(mapping: seq<(Column, Column)>, t: Row, row: Row): Row
    decreases |mapping|
  {
    if mapping == [] then row
    else Mapped(mapping[1..], t, row[mapping[0].0 := Get(t, mapping[0].1)])
  }

  function OuterRows(mapping: seq<(Column, Column)>, l: Row, matches: seq<Row>, t: Row, vis: set<Column>): seq<Row> {
    if matches == [] then []
    else [Mapped(mapping, t + Visible(matches[0], vis), l)] + OuterRows(mapping, l, matches[1..], t, vis)
  }

  /** What one left row contributes to a join. */
  function JoinOne(kind: JoinKind, l: Row, matches: seq<Row>, t: Row, vis: set<Column>): seq<Row> {
    match kind
    case Inner => Pair(l, matches)
    case Semi => if matches != [] then [l] else []
    case AntiSemi => if matches == [] then [l] else []
    case Mark(m) => [l[m := Bool(matches != [])]]
    case Outer(mapping) =>
      if matches == [] then [Mapped(mapping, map[], l)] else OuterRows(mapping, l, matches, t, vis)
  }

  function JoinRows(w: World, kind: JoinKind, pred: Expr, lefts: seq<Row>, rights: seq<seq<Row>>, o: Row,
                    visL: set<Column>, visR: set<Column>): seq<Row>
    requires |lefts| == |rights|
  {
    if lefts == [] then []
    else
      var t := o + Visible(lefts[0], visL);
      JoinOne(kind, lefts[0], Matches(w, pred, rights[0], t, visR), t, visR) +
      JoinRows(w, kind, pred, lefts[1..], rights[1..], o, visL, visR)
  }

  function KeyOf(t: Row, cols: seq<Column>): (r: seq<Val>)
    ensures |r| == |cols|
    ensures forall i :: 0 <= i < |cols| ==> r[i] == Get(t, cols[i])
  {
    seq(|cols|, i requires 0 <= i < |cols| => Get(t, cols[i]))
  }

  /** The rows whose tuples carry the given group-by values. */
  function InGroup(rows: seq<Row>, cols: seq<Column>, key: seq<Val>, o: Row, vis: set<Column>): seq<Row> {
    if rows == [] then []
    else
      (if KeyOf(o + Visible(rows[0], vis), cols) == key then [rows[0]] else []) +
      InGroup(rows[1..], cols, key, o, vis)
  }

  /** The rows of the other groups. */
  function OutOfGroup(rows: seq<Row>, cols: seq<Column>, key: seq<Val>, o: Row, vis: set<Column>): (r: seq<Row>)
    ensures |r| <= |rows|
  {
    if rows == [] then []
    else
      (if KeyOf(o + Visible(rows[0], vis), cols) == key then [] else [rows[0]]) +
      OutOfGroup(rows[1..], cols, key, o, vis)
  }

  function ArgValues(rows: seq<Row>, c: Column, o: Row, vis: set<Column>): seq<Val> {
    if rows == [] then [] else [Get(o + Visible(rows[0], vis), c)] + ArgValues(rows[1..], c, o, vis)
  }

  /** A group's row: its first row, if any, with the computed columns. */
  function Summarize(w: World, aggregates: seq<Aggregate>, group: seq<Row>, o: Row, vis: set<Column>, row: Row): Row
    decreases |aggregates|
  {
    if aggregates == [] then row
    else
      var a := aggregates[0];
      Summarize(w, aggregates[1..], group, o, vis, row[a.col := w.aggregate(a.code, ArgValues(group, a.arg, o, vis))])
  }

  function Groups(w: World, groupBy: seq<Column>, aggregates: seq<Aggregate>, rows: seq<Row>, o: Row, vis: set<Column>): seq<Row>
    decreases |rows|
  {
    if rows == [] then []
    else
      var key := KeyOf(o + Visible(rows[0], vis), groupBy);
      [Summarize(w, aggregates, InGroup(rows, groupBy, key, o, vis), o, vis, rows[0])] +
      Groups(w, groupBy, aggregates, OutOfGroup(rows[1..], groupBy, key, o, vis), o, vis)
  }

  function Aggregated(w: World, groupBy: seq<Column>, aggregates: seq<Aggregate>, rows: seq<Row>, o: Row, vis: set<Column>): seq<Row> {
    if groupBy == [] then [Summarize(w, aggregates, rows, o, vis, if rows == [] then map[] else rows[0])]
    else Groups(w, groupBy, aggregates, rows, o, vis)
  }

  /** The first of the rows that agree on the projected columns stays. */
  function Distinct(cols: seq<Column>, rows: seq<Row>, o: Row, vis: set<Column>): seq<Row>
    decreases |rows|
  {
    if rows == [] then []
    else
      var key := KeyOf(o + Visible(rows[0], vis), cols);
      [rows[0]] + Distinct(cols, OutOfGroup(rows[1..], cols, key, o, vis), o, vis)
  }

  function Renamed(columns: seq<(Column, Column)>, rows: seq<Row>, o: Row, vis: set<Column>): seq<Row> {
    if rows == [] then []
    else [Mapped(columns, o + Visible(rows[0], vis), rows[0])] + Renamed(columns, rows[1..], o, vis)
  }

  /** The rows of a plan when the tuple o is bound around it.  The right input of a join or cross
      product is evaluated with the left tuple bound as well. */
  function Rows(w: World, p: Plan, o: Row): seq<Row>
    decreases p, 0
  {
    match p
    case BaseTable(table, columns, _, _) => BaseRows(columns, if table in w.db then w.db[table] else [])
    case Selection(child, pred) => Filter(w, pred, Rows(w, child, o), o, Output(child))
    case MapOp(child, computed) => MapRows(w, computed, Rows(w, child, o), o, Output(child))
    case CrossProduct(l, r) =>
      var lefts := Rows(w, l, o);
      JoinRows(w, Inner, Constant(Bool(true)), lefts, RightRows(w, lefts, r, o, Output(l)), o, Output(l), Output(r))
    case Join(kind, l, r, pred, _, _) =>
      var lefts := Rows(w, l, o);
      JoinRows(w, kind, pred, lefts, RightRows(w, lefts, r, o, Output(l)), o, Output(l), Output(r))
    case Aggregation(child, groupBy, aggregates) =>
      Aggregated(w, groupBy, aggregates, Rows(w, child, o), o, Output(child))
    case Projection(child, distinct, cols) =>
      if distinct then Distinct(cols, Rows(w, child, o), o, Output(child)) else Rows(w, child, o)
    case Renaming(child, columns) => Renamed(columns, Rows(w, child, o), o, Output(child))
  }

  function RightRows(w: World, lefts: seq<Row>, r: Plan, o: Row, visL: set<Column>): (rights: seq<seq<Row>>)
    ensures |rights| == |lefts|
    decreases r, |lefts|
  {
    if lefts == [] then []
    else [Rows(w, r, o + Visible(lefts[0], visL))] + RightRows(w, lefts[1..], r, o, visL)
  }

  /** The rows as a consumer sees them. */
  function Result(w: World, p: Plan, o: Row): seq<Row> {
    var rows := Rows(w, p, o);
    seq(|rows|, i requires 0 <= i < |rows| => Visible(rows[i], Output(p)))
  }
}
