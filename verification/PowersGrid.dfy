/** The powers grid: a working copy of the role grants, its undo stack, its diff, and how the server applies it. */
module PowersGrid {
  import opened Prelude
  import opened Grants

  /** A cell on the wire and a stored grant row; without a scope it asks for a removal. */
  datatype Cell = Cell(roleId: string, capability: string, scope: Option<Scope>, effect: Effect, params: map<string, int>)

  /** What the menu of one cell can say. */
  datatype Choice = Nothing | Blocked | Give(scope: Scope)

  type Matrix = map<string, Cell>

  function CellKey(roleId: string, capability: string): string {
    roleId + ['|'] + capability
  }

  /** Role ids are uuids, so the separator never occurs in one. */
  predicate Bare(roleId: string) { '|' !in roleId }

  /** Every cell sits under its own key and has a scope. */
  ghost predicate Sound(cells: Matrix) {
    forall k :: k in cells ==>
      Bare(cells[k].roleId) && cells[k].scope.Some? && k == CellKey(cells[k].roleId, cells[k].capability)
  }

  function At(cells: Matrix, roleId: string, capability: string): Option<Cell> {
    var key := CellKey(roleId, capability);
    if key in cells then Some(cells[key]) else None
  }

  lemma SameKey(a: string, b: string, x: string, y: string)
    requires Bare(a) && Bare(b)
    ensures CellKey(a, x) == CellKey(b, y) <==> a == b && x == y
  {
    if CellKey(a, x) == CellKey(b, y) { KeySplit('|', a, b, x, y); }
  }

  // ----- Edits -----

  /** The cell a choice writes; a block is stored at the widest scope. */
  function Chosen(roleId: string, capability: string, choice: Choice): Option<Cell> {
    match choice
    case Nothing => None
    case Blocked => Some(Cell(roleId, capability, Some(All), Deny, map[]))
    case Give(scope) => Some(Cell(roleId, capability, Some(scope), Allow, map[]))
  }

  function Written(cells: Matrix, roleId: string, capability: string, choice: Choice): Matrix {
    var key := CellKey(roleId, capability);
    match Chosen(roleId, capability, choice)
    case None => cells - {key}
    case Some(cell) => cells[key := cell]
  }

  function WrittenAll(cells: Matrix, roles: seq<string>, capability: string, choice: Choice): Matrix {
    if roles == [] then cells
    else Written(WrittenAll(cells, roles[..|roles| - 1], capability, choice), roles[|roles| - 1], capability, choice)
  }

  function Filled(cells: Matrix, roles: seq<string>, capability: string, choice: Choice): Matrix {
    var cleared := map k | k in cells && cells[k].capability != capability :: cells[k];
    if choice.Nothing? then cleared else WrittenAll(cleared, roles, capability, choice)
  }

  function WithoutRole(cells: Matrix, roleId: string): Matrix {
    map k | k in cells && cells[k].roleId != roleId :: cells[k]
  }

  /** Cells of one column renamed to one key are one cell. */
  lemma RenamedApart(cells: Matrix, from: string, to: string)
    requires Sound(cells)
    ensures forall j, k {:trigger cells[j], cells[k]} ::
              (j in cells && k in cells && cells[j].roleId == from && cells[k].roleId == from
               && CellKey(to, cells[j].capability) == CellKey(to, cells[k].capability)) ==> j == k
  {
    forall j, k | j in cells && k in cells && cells[j].roleId == from && cells[k].roleId == from
               && CellKey(to, cells[j].capability) == CellKey(to, cells[k].capability) ensures j == k {
      var a, b := cells[j].capability, cells[k].capability;
      assert CellKey(to, a)[|to| + 1..] == a && CellKey(to, b)[|to| + 1..] == b;
    }
  }

  function Renamed(cells: Matrix, keys: set<string>, from: string, to: string): Matrix
    requires Sound(cells) && keys <= cells.Keys
  {
    RenamedApart(cells, from, to);
    map k | k in keys && cells[k].roleId == from :: CellKey(to, cells[k].capability) := cells[k].(roleId := to)
  }

  function Copied(cells: Matrix, from: string, to: string): Matrix
    requires Sound(cells)
  {
    var kept := WithoutRole(cells, to);
    kept + Renamed(kept, kept.Keys, from, to)
  }

  datatype Edit =
    | SetCell(roleId: string, capability: string, choice: Choice)
    | CopyColumn(fromRoleId: string, toRoleId: string)
    | FillRow(filled: string, with: Choice)

  function Edited(cells: Matrix, roles: seq<string>, e: Edit): Matrix
    requires Sound(cells)
  {
    match e
    case SetCell(r, c, choice) => Written(cells, r, c, choice)
    case CopyColumn(from, to) => Copied(cells, from, to)
    case FillRow(c, choice) => Filled(cells, roles, c, choice)
  }

  /** The role ids an edit names, or takes from the role list, are uuids. */
  ghost predicate Legal(roles: seq<string>, e: Edit) {
    match e
    case SetCell(r, _, _) => Bare(r)
    case CopyColumn(from, to) => Bare(from) && Bare(to)
    case FillRow(_, _) => forall r :: r in roles ==> Bare(r)
  }

  // ----- What each edit does, cell by cell -----

  lemma WriteLaw(cells: Matrix, roleId: string, capability: string, choice: Choice, r: string, c: string)
    requires Sound(cells) && Bare(roleId) && Bare(r)
    ensures Sound(Written(cells, roleId, capability, choice))
    ensures At(Written(cells, roleId, capability, choice), r, c)
         == if r == roleId && c == capability then Chosen(r, c, choice) else At(cells, r, c)
  {
    SameKey(r, roleId, c, capability);
  }

  lemma {:induction false} WriteAllLaw(cells: Matrix, roles: seq<string>, capability: string, choice: Choice, r: string, c: string)
    requires Sound(cells) && Bare(r) && forall x :: x in roles ==> Bare(x)
    ensures Sound(WrittenAll(cells, roles, capability, choice))
    ensures At(WrittenAll(cells, roles, capability, choice), r, c)
         == if r in roles && c == capability then Chosen(r, c, choice) else At(cells, r, c)
  {
    if roles != [] {
      var init, last := roles[..|roles| - 1], roles[|roles| - 1];
      assert roles == init + [last];
      WriteAllLaw(cells, init, capability, choice, r, c);
      WriteLaw(WrittenAll(cells, init, capability, choice), last, capability, choice, r, c);
    }
  }

  /** A filled row says the same in every listed role and nothing in any other; other rows stay. */
  lemma FillLaw(cells: Matrix, roles: seq<string>, capability: string, choice: Choice, r: string, c: string)
    requires Sound(cells) && Bare(r) && forall x :: x in roles ==> Bare(x)
    ensures Sound(Filled(cells, roles, capability, choice))
    ensures At(Filled(cells, roles, capability, choice), r, c)
         == if c != capability then At(cells, r, c) else if r in roles then Chosen(r, c, choice) else None
  {
    var cleared := map k | k in cells && cells[k].capability != capability :: cells[k];
    if CellKey(r, c) in cells { SameKey(r, cells[CellKey(r, c)].roleId, c, cells[CellKey(r, c)].capability); }
    WriteAllLaw(cleared, roles, capability, choice, r, c);
  }

  function Recast(cell: Option<Cell>, to: string): Option<Cell> {
    match cell
    case None => None
    case Some(x) => Some(x.(roleId := to))
  }

  lemma RenamedIsSound(cells: Matrix, keys: set<string>, from: string, to: string)
    requires Sound(cells) && keys <= cells.Keys && Bare(to)
    ensures Sound(Renamed(cells, keys, from, to))
  {}

  lemma RenamedAt(cells: Matrix, from: string, to: string, r: string, c: string)
    requires Sound(cells) && Bare(from) && Bare(to) && Bare(r)
    ensures At(Renamed(cells, cells.Keys, from, to), r, c) == if r == to then Recast(At(cells, from, c), to) else None
  {
    RenamedApart(cells, from, to);
    var moved := Renamed(cells, cells.Keys, from, to);
    var key, source := CellKey(r, c), CellKey(from, c);
    if key in moved {
      var k :| k in cells && cells[k].roleId == from && key == CellKey(to, cells[k].capability);
      SameKey(r, to, c, cells[k].capability);
    } else if r == to && source in cells {
      SameKey(from, cells[source].roleId, c, cells[source].capability);
    }
  }

  /** A copied column replaces the whole target column; a column copied onto itself is cleared. */
  lemma CopyLaw(cells: Matrix, from: string, to: string, r: string, c: string)
    requires Sound(cells) && Bare(from) && Bare(to) && Bare(r)
    ensures At(Copied(cells, from, to), r, c)
         == if r != to then At(cells, r, c) else if from == to then None else Recast(At(cells, from, c), to)
  {
    var kept := WithoutRole(cells, to);
    RenamedAt(kept, from, to, r, c);
    KeptAt(cells, to, r, c);
    KeptAt(cells, to, from, c);
  }

  lemma KeptAt(cells: Matrix, dropped: string, r: string, c: string)
    requires Sound(cells) && Bare(r)
    ensures At(WithoutRole(cells, dropped), r, c) == if r == dropped then None else At(cells, r, c)
  {
    var key := CellKey(r, c);
    if key in cells { SameKey(r, cells[key].roleId, c, cells[key].capability); }
  }

  lemma EditKeepsSound(cells: Matrix, roles: seq<string>, e: Edit)
    requires Sound(cells) && Legal(roles, e)
    ensures Sound(Edited(cells, roles, e))
  {
    match e
    case SetCell(r, c, choice) => WriteLaw(cells, r, c, choice, r, c);
    case CopyColumn(from, to) => RenamedIsSound(WithoutRole(cells, to), WithoutRole(cells, to).Keys, from, to);
    case FillRow(c, choice) => FillLaw(cells, roles, c, choice, "", c);
  }

  // ----- Undo -----

  datatype Session = Session(cells: Matrix, history: seq<Matrix>)

  datatype Action = Do(edit: Edit) | Undo

  ghost predicate SoundSession(s: Session) {
    Sound(s.cells) && forall m :: m in s.history ==> Sound(m)
  }

  ghost predicate LegalActions(roles: seq<string>, actions: seq<Action>) {
    forall a :: a in actions && a.Do? ==> Legal(roles, a.edit)
  }

  function Undone(s: Session): Session {
    if s.history == [] then s
    else Session(s.history[|s.history| - 1], s.history[..|s.history| - 1])
  }

  function Step(s: Session, roles: seq<string>, a: Action): (t: Session)
    requires SoundSession(s) && (a.Do? ==> Legal(roles, a.edit))
    ensures SoundSession(t)
  {
    match a
    case Undo => Undone(s)
    case Do(e) =>
      EditKeepsSound(s.cells, roles, e);
      Session(Edited(s.cells, roles, e), s.history + [s.cells])
  }

  function Run(s: Session, roles: seq<string>, actions: seq<Action>): (t: Session)
    requires SoundSession(s) && LegalActions(roles, actions)
    ensures SoundSession(t)
  {
    if actions == [] then s
    else Step(Run(s, roles, actions[..|actions| - 1]), roles, actions[|actions| - 1])
  }

  function Dos(edits: seq<Edit>): seq<Action> {
    seq(|edits|, i requires 0 <= i < |edits| => Do(edits[i]))
  }

  function Undos(k: nat): seq<Action> {
    seq(k, _ => Undo)
  }

  lemma EditThenUndo(s: Session, roles: seq<string>, e: Edit)
    requires SoundSession(s) && Legal(roles, e)
    ensures Undone(Step(s, roles, Do(e))) == s
  {
    assert (s.history + [s.cells])[..|s.history|] == s.history;
  }

  lemma LastEdit(s: Session, roles: seq<string>, edits: seq<Edit>)
    requires SoundSession(s) && edits != [] && forall e :: e in edits ==> Legal(roles, e)
    ensures var init := edits[..|edits| - 1];
            Run(s, roles, Dos(edits)) == Step(Run(s, roles, Dos(init)), roles, Do(edits[|edits| - 1]))
  {
    assert Dos(edits)[..|edits| - 1] == Dos(edits[..|edits| - 1]);
  }

  lemma RewindOne(s: Session, roles: seq<string>, edits: seq<Edit>, n: nat)
    requires SoundSession(s) && n < |edits| && forall e :: e in edits ==> Legal(roles, e)
    ensures Undone(Run(s, roles, Dos(edits[..n + 1]))) == Run(s, roles, Dos(edits[..n]))
  {
    LastEdit(s, roles, edits[..n + 1]);
    assert edits[..n + 1][..n] == edits[..n];
    EditThenUndo(Run(s, roles, Dos(edits[..n])), roles, edits[n]);
  }

  lemma LastUndo(s: Session, roles: seq<string>, edits: seq<Edit>, k: nat)
    requires SoundSession(s) && k > 0 && forall e :: e in edits ==> Legal(roles, e)
    ensures Run(s, roles, Dos(edits) + Undos(k)) == Undone(Run(s, roles, Dos(edits) + Undos(k - 1)))
  {
    var actions := Dos(edits) + Undos(k);
    assert actions[..|actions| - 1] == Dos(edits) + Undos(k - 1);
  }

  /** After any edits, k undos are as if the last k edits had never been made. */
  lemma {:induction false} UndoRewinds(s: Session, roles: seq<string>, edits: seq<Edit>, k: nat)
    requires SoundSession(s) && k <= |edits| && forall e :: e in edits ==> Legal(roles, e)
    ensures Run(s, roles, Dos(edits) + Undos(k)) == Run(s, roles, Dos(edits[..|edits| - k]))
    decreases k
  {
    if k == 0 {
      assert Dos(edits) + Undos(k) == Dos(edits) && edits[..|edits|] == edits;
    } else {
      var n := |edits| - k;
      UndoRewinds(s, roles, edits, k - 1);
      LastUndo(s, roles, edits, k);
      RewindOne(s, roles, edits, n);
      assert |edits| - (k - 1) == n + 1;
    }
  }

  // ----- The diff -----

  function KeyOf(cell: Cell): string { CellKey(cell.roleId, cell.capability) }

  /** What the comparison looks at: the parameters of a cell are not part of it. */
  predicate Changed(saved: Matrix, key: string, cell: Cell) {
    key !in saved || saved[key].scope != cell.scope || saved[key].effect != cell.effect
  }

  /** A payload naming each changed cell among some keys once, and each removed one with no scope. */
  ghost predicate Lists(saved: Matrix, cells: Matrix, present: set<string>, past: set<string>, diff: seq<Cell>)
    requires present <= cells.Keys && past <= saved.Keys
  {
    && (forall x :: x in diff ==>
          || (KeyOf(x) in present && Changed(saved, KeyOf(x), x) && x == cells[KeyOf(x)])
          || (KeyOf(x) in past && KeyOf(x) !in cells && x == saved[KeyOf(x)].(scope := None)))
    && (forall k :: k in present && Changed(saved, k, cells[k]) ==> cells[k] in diff)
    && (forall k :: k in past && k !in cells ==> saved[k].(scope := None) in diff)
    && (forall i, j :: 0 <= i < j < |diff| ==> KeyOf(diff[i]) != KeyOf(diff[j]))
  }

  ghost predicate IsDiff(saved: Matrix, cells: Matrix, diff: seq<Cell>) {
    Lists(saved, cells, cells.Keys, saved.Keys, diff)
  }

  /** The screen's own test for unsaved changes. */
  predicate Dirty(saved: Matrix, cells: Matrix) {
    |cells| != |saved| || exists k :: k in cells && Changed(saved, k, cells[k])
  }

  /** Nothing to send exactly when not dirty: equal sizes and no changed cell leave no room for a removal. */
  lemma DiffIsEmptyWhenClean(saved: Matrix, cells: Matrix, diff: seq<Cell>)
    requires Sound(saved) && Sound(cells) && IsDiff(saved, cells, diff)
    ensures diff == [] <==> !Dirty(saved, cells)
  {
    assert diff != [] ==> diff[0] in diff;
    assert |cells| == |cells.Keys| && |saved| == |saved.Keys|;
    if diff == [] {
      assert cells.Keys == saved.Keys;
    } else if !Dirty(saved, cells) {
      SubsetSize(cells.Keys, saved.Keys);
    }
  }

  // ----- The stored rows -----

  function Is(roleId: string, capability: string): Cell -> bool {
    (x: Cell) => x.roleId == roleId && x.capability == capability
  }

  function IsNot(roleId: string, capability: string): Cell -> bool {
    (x: Cell) => !(x.roleId == roleId && x.capability == capability)
  }

  function RowsAt(rows: seq<Cell>, roleId: string, capability: string): seq<Cell> {
    Filter(rows, Is(roleId, capability))
  }

  function LastAt(rows: seq<Cell>, roleId: string, capability: string): Option<Cell> {
    var there := RowsAt(rows, roleId, capability);
    if there == [] then None else Some(there[|there| - 1])
  }

  /** Loading the grid keeps one cell a key: the last row. */
  function Loaded(rows: seq<Cell>): Matrix {
    if rows == [] then map[]
    else
      var row := rows[|rows| - 1];
      Loaded(rows[..|rows| - 1])[KeyOf(row) := row]
  }

  /** One cell on the server: its rows are deleted, and with a scope a new row is made. */
  function Put(rows: seq<Cell>, cell: Cell): seq<Cell> {
    Filter(rows, IsNot(cell.roleId, cell.capability)) + if cell.scope.Some? then [cell] else []
  }

  function Applied(rows: seq<Cell>, cells: seq<Cell>): seq<Cell> {
    if cells == [] then rows else Put(Applied(rows, cells[..|cells| - 1]), cells[|cells| - 1])
  }

  ghost predicate SoundRows(rows: seq<Cell>) {
    forall x :: x in rows ==> Bare(x.roleId) && x.scope.Some?
  }

  lemma {:induction false} FilterNarrowed(rows: seq<Cell>, wide: Cell -> bool, narrow: Cell -> bool)
    requires forall x :: x in rows && narrow(x) ==> wide(x)
    ensures Filter(Filter(rows, wide), narrow) == Filter(rows, narrow)
  {
    if rows != [] {
      assert forall x :: x in rows[1..] ==> x in rows;
      FilterNarrowed(rows[1..], wide, narrow);
      FilterAppend(if wide(rows[0]) then [rows[0]] else [], Filter(rows[1..], wide), narrow);
      assert rows[0] in rows;
    }
  }

  lemma {:induction false} FilterNone(rows: seq<Cell>, wide: Cell -> bool, narrow: Cell -> bool)
    requires forall x :: x in rows && narrow(x) ==> !wide(x)
    ensures Filter(Filter(rows, wide), narrow) == []
  {
    if rows != [] {
      assert forall x :: x in rows[1..] ==> x in rows;
      FilterNone(rows[1..], wide, narrow);
      FilterAppend(if wide(rows[0]) then [rows[0]] else [], Filter(rows[1..], wide), narrow);
      assert rows[0] in rows;
    }
  }

  /** The rows of a cell after a put: the new row alone, or none, or what was there. */
  lemma PutLaw(rows: seq<Cell>, cell: Cell, r: string, c: string)
    ensures RowsAt(Put(rows, cell), r, c)
         == if cell.roleId != r || cell.capability != c then RowsAt(rows, r, c) else if cell.scope.Some? then [cell] else []
  {
    var wide, narrow := IsNot(cell.roleId, cell.capability), Is(r, c);
    FilterAppend(Filter(rows, wide), if cell.scope.Some? then [cell] else [], narrow);
    if cell.roleId != r || cell.capability != c {
      FilterNarrowed(rows, wide, narrow);
    } else {
      FilterNone(rows, wide, narrow);
    }
  }

  lemma LastOfAppend(rows: seq<Cell>, x: Cell, r: string, c: string)
    ensures LastAt(rows + [x], r, c) == if x.roleId == r && x.capability == c then Some(x) else LastAt(rows, r, c)
  {
    FilterAppend(rows, [x], Is(r, c));
  }

  /** A save replaces the rows of every cell it names by that cell, and touches no other row. */
  lemma {:induction false} SaveLaw(rows: seq<Cell>, cells: seq<Cell>, r: string, c: string)
    ensures RowsAt(Applied(rows, cells), r, c)
         == match LastAt(cells, r, c)
            case None => RowsAt(rows, r, c)
            case Some(x) => if x.scope.Some? then [x] else []
  {
    if cells != [] {
      var init, x := cells[..|cells| - 1], cells[|cells| - 1];
      assert cells == init + [x];
      SaveLaw(rows, init, r, c);
      LastOfAppend(init, x, r, c);
      PutLaw(Applied(rows, init), x, r, c);
    }
  }

  lemma {:induction false} LoadLaw(rows: seq<Cell>, r: string, c: string)
    requires SoundRows(rows) && Bare(r)
    ensures Sound(Loaded(rows)) && At(Loaded(rows), r, c) == LastAt(rows, r, c)
  {
    if rows != [] {
      var init, x := rows[..|rows| - 1], rows[|rows| - 1];
      assert rows == init + [x] && x in rows;
      assert forall y :: y in init ==> y in rows;
      LoadLaw(init, r, c);
      LastOfAppend(init, x, r, c);
      SameKey(r, x.roleId, c, x.capability);
    }
  }

  // ----- Saving -----

  /** What the payload says of one cell. */
  function Said(saved: Matrix, cells: Matrix, k: string): Option<Cell> {
    if k in cells then (if Changed(saved, k, cells[k]) then Some(cells[k]) else None)
    else if k in saved then Some(saved[k].(scope := None))
    else None
  }

  lemma DiffAt(saved: Matrix, cells: Matrix, diff: seq<Cell>, r: string, c: string)
    requires Sound(saved) && Sound(cells) && IsDiff(saved, cells, diff) && Bare(r)
    ensures LastAt(diff, r, c) == Said(saved, cells, CellKey(r, c))
  {
    var k := CellKey(r, c);
    var there := RowsAt(diff, r, c);
    if k in cells {
      SameKey(r, cells[k].roleId, c, cells[k].capability);
      FilterIn(diff, Is(r, c), cells[k]);
    } else if k in saved {
      SameKey(r, saved[k].roleId, c, saved[k].capability);
      FilterIn(diff, Is(r, c), saved[k].(scope := None));
    }
    if there != [] {
      var x := there[|there| - 1];
      assert x in there;
      FilterIn(diff, Is(r, c), x);
    }
  }

  lemma LastAfterSave(rows: seq<Cell>, cells: seq<Cell>, r: string, c: string)
    ensures LastAt(Applied(rows, cells), r, c)
         == match LastAt(cells, r, c)
            case None => LastAt(rows, r, c)
            case Some(x) => if x.scope.Some? then Some(x) else None
  {
    SaveLaw(rows, cells, r, c);
  }

  /** What a fresh load shows after a save: the working copy, but an unchanged cell as it was stored. */
  lemma SavedCell(rows: seq<Cell>, cells: Matrix, diff: seq<Cell>, r: string, c: string)
    requires SoundRows(rows) && Sound(cells) && IsDiff(Loaded(rows), cells, diff) && Bare(r)
    ensures var saved, k := Loaded(rows), CellKey(r, c);
            LastAt(Applied(rows, diff), r, c) == if k in cells && !Changed(saved, k, cells[k]) then Some(saved[k]) else At(cells, r, c)
  {
    LoadLaw(rows, r, c);
    DiffAt(Loaded(rows), cells, diff, r, c);
    LastAfterSave(rows, diff, r, c);
  }

  /** After a save, a fresh load shows the working copy's scope and effect in every cell. */
  lemma SaveReachesTheWorkingCopy(rows: seq<Cell>, cells: Matrix, diff: seq<Cell>, r: string, c: string)
    requires SoundRows(rows) && Sound(cells) && IsDiff(Loaded(rows), cells, diff) && Bare(r)
    ensures var stored, shown := LastAt(Applied(rows, diff), r, c), At(cells, r, c);
            && (stored == None <==> shown == None)
            && (shown.Some? ==> stored.value.scope == shown.value.scope && stored.value.effect == shown.value.effect)
  {
    SavedCell(rows, cells, diff, r, c);
  }

  /** The parameters arrive too exactly when the cell was sent for another reason, or had them already. */
  lemma ParamsArriveWhenSent(rows: seq<Cell>, cells: Matrix, diff: seq<Cell>, r: string, c: string)
    requires SoundRows(rows) && Sound(cells) && IsDiff(Loaded(rows), cells, diff) && Bare(r) && CellKey(r, c) in cells
    ensures var saved, k := Loaded(rows), CellKey(r, c);
            && LastAt(Applied(rows, diff), r, c).Some?
            && (LastAt(Applied(rows, diff), r, c).value.params == cells[k].params
                <==> Changed(saved, k, cells[k]) || saved[k].params == cells[k].params)
  {
    SavedCell(rows, cells, diff, r, c);
  }

  /** Over a whole sitting: load, any edits and undos, save. */
  lemma SittingIsSaved(rows: seq<Cell>, roles: seq<string>, actions: seq<Action>, diff: seq<Cell>, r: string, c: string)
    requires SoundRows(rows) && LegalActions(roles, actions) && Bare(r)
    requires Sound(Loaded(rows)) && IsDiff(Loaded(rows), Run(Session(Loaded(rows), []), roles, actions).cells, diff)
    ensures var stored, shown := LastAt(Applied(rows, diff), r, c), At(Run(Session(Loaded(rows), []), roles, actions).cells, r, c);
            && (stored == None <==> shown == None)
            && (shown.Some? ==> stored.value.scope == shown.value.scope && stored.value.effect == shown.value.effect)
  {
    SaveReachesTheWorkingCopy(rows, Run(Session(Loaded(rows), []), roles, actions).cells, diff, r, c);
  }

  // ----- The screen -----

  lemma RenamedGrows(cells: Matrix, keys: set<string>, k: string, from: string, to: string)
    requires Sound(cells) && keys <= cells.Keys && k in cells
    ensures Renamed(cells, keys + {k}, from, to)
         == if cells[k].roleId == from then Renamed(cells, keys, from, to)[CellKey(to, cells[k].capability) := cells[k].(roleId := to)]
            else Renamed(cells, keys, from, to)
  {
    var more, was := Renamed(cells, keys + {k}, from, to), Renamed(cells, keys, from, to);
    if cells[k].roleId == from {
      var one := CellKey(to, cells[k].capability);
      forall c ensures c in more <==> c in was || c == one { RenamedKeys(cells, keys, k, from, to, c); }
      forall c | c in more ensures more[c] == if c == one then cells[k].(roleId := to) else was[c] {
        RenamedValue(cells, keys, k, from, to, c);
      }
    } else {
      assert forall j :: j in keys + {k} && cells[j].roleId == from <==> j in keys && cells[j].roleId == from;
    }
  }

  lemma RenamedKeys(cells: Matrix, keys: set<string>, k: string, from: string, to: string, c: string)
    requires Sound(cells) && keys <= cells.Keys && k in cells && cells[k].roleId == from
    ensures c in Renamed(cells, keys + {k}, from, to) <==> c in Renamed(cells, keys, from, to) || c == CellKey(to, cells[k].capability)
  {
    if j :| j in keys && cells[j].roleId == from && c == CellKey(to, cells[j].capability) { assert j in keys + {k}; }
    if c == CellKey(to, cells[k].capability) { assert k in keys + {k}; }
  }

  lemma RenamedValue(cells: Matrix, keys: set<string>, k: string, from: string, to: string, c: string)
    requires Sound(cells) && keys <= cells.Keys && k in cells && cells[k].roleId == from
    requires c in Renamed(cells, keys + {k}, from, to)
    ensures c != CellKey(to, cells[k].capability) ==> c in Renamed(cells, keys, from, to)
    ensures Renamed(cells, keys + {k}, from, to)[c]
         == if c == CellKey(to, cells[k].capability) then cells[k].(roleId := to) else Renamed(cells, keys, from, to)[c]
  {
    RenamedApart(cells, from, to);
    var j :| j in keys + {k} && cells[j].roleId == from && c == CellKey(to, cells[j].capability);
    if c == CellKey(to, cells[k].capability) { assert j == k; }
  }

  method DropRole(cells: Matrix, to: string) returns (next: Matrix)
    ensures next == WithoutRole(cells, to)
  {
    next := cells;
    var todo := cells.Keys;
    while todo != {}
      invariant todo <= cells.Keys
      invariant next == map k | k in cells && (k in todo || cells[k].roleId != to) :: cells[k]
      decreases todo
    {
      var k :| k in todo;
      if cells[k].roleId == to { next := next - {k}; }
      todo := todo - {k};
    }
  }

  lemma MergeOne(a: Matrix, b: Matrix, k: string, x: Cell)
    ensures a + b[k := x] == (a + b)[k := x]
  {}

  /** One step of the copy loop: the renamed cell joins what is already there. */
  lemma CopyStep(kept: Matrix, seen: set<string>, k: string, from: string, to: string)
    requires Sound(kept) && seen <= kept.Keys && k in kept
    ensures kept + Renamed(kept, seen + {k}, from, to)
         == if kept[k].roleId == from
            then (kept + Renamed(kept, seen, from, to))[CellKey(to, kept[k].capability) := kept[k].(roleId := to)]
            else kept + Renamed(kept, seen, from, to)
  {
    RenamedGrows(kept, seen, k, from, to);
    MergeOne(kept, Renamed(kept, seen, from, to), CellKey(to, kept[k].capability), kept[k].(roleId := to));
  }

  method AddRenamed(kept: Matrix, from: string, to: string) returns (next: Matrix)
    requires Sound(kept)
    ensures next == kept + Renamed(kept, kept.Keys, from, to)
  {
    next := kept;
    ghost var seen: set<string> := {};
    var todo := kept.Keys;
    while todo != {}
      invariant todo + seen == kept.Keys
      invariant next == kept + Renamed(kept, seen, from, to)
      decreases todo
    {
      var k :| k in todo;
      CopyStep(kept, seen, k, from, to);
      if kept[k].roleId == from { next := next[CellKey(to, kept[k].capability) := kept[k].(roleId := to)]; }
      todo, seen := todo - {k}, seen + {k};
    }
    assert seen == kept.Keys;
  }

  method DropCapability(cells: Matrix, capability: string) returns (next: Matrix)
    ensures next == map k | k in cells && cells[k].capability != capability :: cells[k]
  {
    next := cells;
    var todo := cells.Keys;
    while todo != {}
      invariant todo <= cells.Keys
      invariant next == map k | k in cells && (k in todo || cells[k].capability != capability) :: cells[k]
      decreases todo
    {
      var k :| k in todo;
      if cells[k].capability == capability { next := next - {k}; }
      todo := todo - {k};
    }
  }

  lemma ListsPresent(saved: Matrix, cells: Matrix, present: set<string>, diff: seq<Cell>, k: string)
    requires Sound(saved) && Sound(cells) && present <= cells.Keys && k in cells && k !in present
    requires Lists(saved, cells, present, {}, diff)
    ensures Lists(saved, cells, present + {k}, {}, if Changed(saved, k, cells[k]) then diff + [cells[k]] else diff)
  {
    assert forall i :: 0 <= i < |diff| ==> diff[i] in diff;
  }

  lemma ListsPast(saved: Matrix, cells: Matrix, past: set<string>, diff: seq<Cell>, k: string)
    requires Sound(saved) && Sound(cells) && past <= saved.Keys && k in saved && k !in past
    requires Lists(saved, cells, cells.Keys, past, diff)
    ensures Lists(saved, cells, cells.Keys, past + {k}, if k !in cells then diff + [saved[k].(scope := None)] else diff)
  {
    assert forall i :: 0 <= i < |diff| ==> diff[i] in diff;
  }

  method Additions(saved: Matrix, cells: Matrix) returns (diff: seq<Cell>)
    requires Sound(saved) && Sound(cells)
    ensures Lists(saved, cells, cells.Keys, {}, diff)
  {
    diff := [];
    ghost var seen: set<string> := {};
    var todo := cells.Keys;
    while todo != {}
      invariant todo + seen == cells.Keys && todo !! seen && Lists(saved, cells, seen, {}, diff)
      decreases todo
    {
      var k :| k in todo;
      ListsPresent(saved, cells, seen, diff, k);
      if Changed(saved, k, cells[k]) { diff := diff + [cells[k]]; }
      todo, seen := todo - {k}, seen + {k};
    }
    assert seen == cells.Keys;
  }

  method Removals(saved: Matrix, cells: Matrix, added: seq<Cell>) returns (diff: seq<Cell>)
    requires Sound(saved) && Sound(cells) && Lists(saved, cells, cells.Keys, {}, added)
    ensures IsDiff(saved, cells, diff)
  {
    diff := added;
    ghost var seen: set<string> := {};
    var todo := saved.Keys;
    while todo != {}
      invariant todo + seen == saved.Keys && todo !! seen && Lists(saved, cells, cells.Keys, seen, diff)
      decreases todo
    {
      var k :| k in todo;
      ListsPast(saved, cells, seen, diff, k);
      if k !in cells { diff := diff + [saved[k].(scope := None)]; }
      todo, seen := todo - {k}, seen + {k};
    }
    assert seen == saved.Keys;
  }

  /** The working copy, the last saved matrix, and the stack of earlier working copies. */
  class Grid {
    var cells: Matrix
    var saved: Matrix
    var history: seq<Matrix>
    var roles: seq<string>

    ghost predicate Valid() reads this {
      SoundSession(Sitting()) && Sound(saved) && forall r :: r in roles ==> Bare(r)
    }

    function Sitting(): Session reads this { Session(cells, history) }

    constructor ()
      ensures Valid() && cells == saved == map[] && history == []
    {
      cells, saved, history, roles := map[], map[], [], [];
    }

    method Load(rows: seq<Cell>, roleList: seq<string>)
      requires SoundRows(rows) && forall r :: r in roleList ==> Bare(r)
      modifies this
      ensures Valid() && cells == saved == Loaded(rows) && history == [] && roles == roleList
    {
      var loaded: Matrix := map[];
      for i := 0 to |rows|
        invariant loaded == Loaded(rows[..i])
      {
        assert rows[..i + 1][..i] == rows[..i];
        loaded := loaded[KeyOf(rows[i]) := rows[i]];
      }
      assert rows[..|rows|] == rows;
      LoadLaw(rows, "", "");
      cells, saved, history, roles := loaded, loaded, [], roleList;
    }

    method SetCell(roleId: string, capability: string, choice: Choice)
      requires Valid() && Bare(roleId)
      modifies this`cells, this`history
      ensures Valid() && Sitting() == Step(old(Sitting()), roles, Do(Edit.SetCell(roleId, capability, choice)))
    {
      WriteLaw(cells, roleId, capability, choice, roleId, capability);
      history := history + [cells];
      cells := Written(cells, roleId, capability, choice);
    }

    method CopyColumn(from: string, to: string)
      requires Valid() && Bare(from) && Bare(to)
      modifies this`cells, this`history
      ensures Valid() && Sitting() == Step(old(Sitting()), roles, Do(Edit.CopyColumn(from, to)))
    {
      EditKeepsSound(cells, roles, Edit.CopyColumn(from, to));
      var kept := DropRole(cells, to);
      var next := AddRenamed(kept, from, to);
      history := history + [cells];
      cells := next;
    }

    method FillRow(capability: string, choice: Choice)
      requires Valid()
      modifies this`cells, this`history
      ensures Valid() && Sitting() == Step(old(Sitting()), roles, Do(Edit.FillRow(capability, choice)))
    {
      EditKeepsSound(cells, roles, Edit.FillRow(capability, choice));
      var cleared := DropCapability(cells, capability);
      var next := cleared;
      if !choice.Nothing? {
        for i := 0 to |roles|
          invariant next == WrittenAll(cleared, roles[..i], capability, choice)
        {
          assert roles[..i + 1][..i] == roles[..i];
          next := Written(next, roles[i], capability, choice);
        }
        assert roles[..|roles|] == roles;
      }
      history := history + [cells];
      cells := next;
    }

    method Undo()
      requires Valid()
      modifies this`cells, this`history
      ensures Valid() && Sitting() == Undone(old(Sitting()))
    {
      if history != [] {
        cells, history := history[|history| - 1], history[..|history| - 1];
      }
    }

    /** The payload of a save, in whatever order the maps are walked. */
    method Diff() returns (diff: seq<Cell>)
      requires Valid()
      ensures IsDiff(saved, cells, diff)
    {
      var added := Additions(saved, cells);
      diff := Removals(saved, cells, added);
    }

    method IsDirty() returns (dirty: bool)
      requires Valid()
      ensures dirty == Dirty(saved, cells)
    {
      if |cells| != |saved| { return true; }
      var todo := cells.Keys;
      while todo != {}
        invariant todo <= cells.Keys
        invariant forall k :: k in cells && Changed(saved, k, cells[k]) ==> k in todo
        decreases todo
      {
        var k :| k in todo;
        if Changed(saved, k, cells[k]) { return true; }
        todo := todo - {k};
      }
      return false;
    }
  }
}
