/** The server side of the powers grid: refusals, the lockout guard, and the rows that remain. */
module RoleMatrix {
  import opened Prelude
  import opened Grants
  import opened PowersGrid

  const UPDATE := "grant.update"

  datatype Refusal = UnknownRole | UnknownCapability | NobodyLeft

  datatype Outcome = Stored(rows: seq<Cell>) | Refused(why: Refusal)

  // ----- The lockout guard -----

  predicate Touches(cells: seq<Cell>, power: string) {
    exists x :: x in cells && x.capability == power
  }

  function EffectOf(row: Option<Cell>): Option<Effect> {
    match row
    case None => None
    case Some(x) => if x.scope.Some? then Some(x.effect) else None
  }

  /** The effect the guard believes a role will have: the payload's last word, else the last stored row. */
  function After(rows: seq<Cell>, cells: seq<Cell>, r: string, power: string): Option<Effect> {
    if LastAt(cells, r, power).Some? then EffectOf(LastAt(cells, r, power)) else EffectOf(LastAt(rows, r, power))
  }

  predicate HolderAfter(rows: seq<Cell>, cells: seq<Cell>, r: string, power: string) {
    After(rows, cells, r, power) == Some(Allow)
  }

  ghost predicate SomebodyAfter(rows: seq<Cell>, cells: seq<Cell>, power: string) {
    exists r :: HolderAfter(rows, cells, r, power)
  }

  ghost predicate Passes(rows: seq<Cell>, cells: seq<Cell>, power: string) {
    !Touches(cells, power) || SomebodyAfter(rows, cells, power)
  }

  function Known(effects: map<string, Option<Effect>>, r: string): Option<Effect> {
    if r in effects then effects[r] else None
  }

  lemma EffectSnoc(rows: seq<Cell>, x: Cell, r: string, power: string)
    ensures EffectOf(LastAt(rows + [x], r, power))
         == if x.roleId == r && x.capability == power then EffectOf(Some(x)) else EffectOf(LastAt(rows, r, power))
  {
    LastOfAppend(rows, x, r, power);
  }

  method StoredEffects(rows: seq<Cell>, power: string) returns (effects: map<string, Option<Effect>>)
    requires SoundRows(rows)
    ensures forall r :: Known(effects, r) == EffectOf(LastAt(rows, r, power))
  {
    effects := map[];
    for i := 0 to |rows|
      invariant forall r :: Known(effects, r) == EffectOf(LastAt(rows[..i], r, power))
    {
      assert rows[..i + 1] == rows[..i] + [rows[i]];
      forall r { EffectSnoc(rows[..i], rows[i], r, power); }
      assert rows[i] in rows && rows[i].scope.Some?;
      if rows[i].capability == power { effects := effects[rows[i].roleId := Some(rows[i].effect)]; }
    }
    assert rows[..|rows|] == rows;
  }

  lemma AfterSnoc(rows: seq<Cell>, cells: seq<Cell>, x: Cell, r: string, power: string)
    ensures After(rows, cells + [x], r, power)
         == if x.roleId == r && x.capability == power then EffectOf(Some(x)) else After(rows, cells, r, power)
  {
    LastOfAppend(cells, x, r, power);
  }

  method AssertSomebodyCanStillEdit(rows: seq<Cell>, cells: seq<Cell>, power: string) returns (ok: bool)
    requires SoundRows(rows)
    ensures ok <==> Passes(rows, cells, power)
  {
    if !Touches(cells, power) { return true; }
    var effects := StoredEffects(rows, power);
    for i := 0 to |cells|
      invariant forall r :: Known(effects, r) == After(rows, cells[..i], r, power)
    {
      assert cells[..i + 1] == cells[..i] + [cells[i]];
      forall r { AfterSnoc(rows, cells[..i], cells[i], r, power); }
      if cells[i].capability == power {
        effects := effects[cells[i].roleId := if cells[i].scope.None? then None else Some(cells[i].effect)];
      }
    }
    assert cells[..|cells|] == cells;
    ok := exists r :: r in effects && effects[r] == Some(Allow);
    assert ok ==> exists r :: r in effects && HolderAfter(rows, cells, r, power);
    assert forall r :: HolderAfter(rows, cells, r, power) ==> Known(effects, r) == Some(Allow);
  }

  // ----- The write -----

  function FirstRefusal(roles: set<string>, catalogue: set<string>, cells: seq<Cell>, i: nat): Option<Refusal>
    requires i <= |cells|
    decreases |cells| - i
  {
    if i == |cells| then None
    else if cells[i].roleId !in roles then Some(UnknownRole)
    else if cells[i].capability !in catalogue then Some(UnknownCapability)
    else FirstRefusal(roles, catalogue, cells, i + 1)
  }

  method WriteMatrix(rows: seq<Cell>, roles: set<string>, catalogue: set<string>, cells: seq<Cell>) returns (out: Outcome)
    requires SoundRows(rows)
    ensures match FirstRefusal(roles, catalogue, cells, 0)
            case Some(why) => out == Refused(why)
            case None => if !Passes(rows, cells, "grant.update") then out == Refused(NobodyLeft)
                         else out == Stored(Applied(rows, cells))
  {
    for i := 0 to |cells|
      invariant FirstRefusal(roles, catalogue, cells, i) == FirstRefusal(roles, catalogue, cells, 0)
    {
      if cells[i].roleId !in roles { return Refused(UnknownRole); }
      if cells[i].capability !in catalogue { return Refused(UnknownCapability); }
    }
    var ok := AssertSomebodyCanStillEdit(rows, cells, UPDATE);
    if !ok { return Refused(NobodyLeft); }
    var next := rows;
    for i := 0 to |cells|
      invariant next == Applied(rows, cells[..i])
    {
      assert cells[..i + 1][..i] == cells[..i];
      next := Filter(next, IsNot(cells[i].roleId, cells[i].capability));
      if cells[i].scope.Some? { next := next + [cells[i]]; }
    }
    assert cells[..|cells|] == cells;
    out := Stored(next);
  }

  lemma {:induction false} NotRefused(roles: set<string>, catalogue: set<string>, cells: seq<Cell>, i: nat, k: nat)
    requires i <= k < |cells| && FirstRefusal(roles, catalogue, cells, i) == None
    ensures cells[k].roleId in roles && cells[k].capability in catalogue
    decreases k - i
  {
    if i < k { NotRefused(roles, catalogue, cells, i + 1, k); }
  }

  /** Every stored row was there before or is a cell of the payload. */
  lemma {:induction false} AppliedComesFrom(rows: seq<Cell>, cells: seq<Cell>, x: Cell)
    requires x in Applied(rows, cells)
    ensures x in rows || x in cells
  {
    if cells != [] {
      var init, last := cells[..|cells| - 1], cells[|cells| - 1];
      assert cells == init + [last];
      FilterIn(Applied(rows, init), IsNot(last.roleId, last.capability), x);
      if x != last { AppliedComesFrom(rows, init, x); }
    }
  }

  // ----- Somebody can always edit powers -----

  /** What the guard counts as a holder: the last row of the role allows. */
  predicate Holder(rows: seq<Cell>, r: string, power: string) {
    EffectOf(LastAt(rows, r, power)) == Some(Allow)
  }

  ghost predicate SomebodyHolds(rows: seq<Cell>, power: string) {
    exists r :: Holder(rows, r, power)
  }

  /** What holding means: some row allows and none denies. */
  ghost predicate Holds(rows: seq<Cell>, r: string, power: string) {
    && (exists x :: x in RowsAt(rows, r, power) && x.effect == Allow)
    && (forall x :: x in RowsAt(rows, r, power) ==> x.effect == Allow)
  }

  lemma AfterIsStored(rows: seq<Cell>, cells: seq<Cell>, r: string, power: string)
    requires SoundRows(rows)
    ensures EffectOf(LastAt(Applied(rows, cells), r, power)) == After(rows, cells, r, power)
  {
    SaveLaw(rows, cells, r, power);
  }

  lemma UntouchedStays(rows: seq<Cell>, cells: seq<Cell>, r: string, power: string)
    requires !Touches(cells, power)
    ensures RowsAt(Applied(rows, cells), r, power) == RowsAt(rows, r, power)
  {
    SaveLaw(rows, cells, r, power);
    var there := RowsAt(cells, r, power);
    if there != [] {
      assert there[0] in there;
      FilterIn(cells, Is(r, power), there[0]);
    }
  }

  /** The guard passes exactly the payloads that leave a holder, or leave the power alone. */
  lemma GuardIsExact(rows: seq<Cell>, cells: seq<Cell>, power: string)
    requires SoundRows(rows)
    ensures SomebodyAfter(rows, cells, power) <==> SomebodyHolds(Applied(rows, cells), power)
  {
    if SomebodyAfter(rows, cells, power) {
      var r :| HolderAfter(rows, cells, r, power);
      AfterIsStored(rows, cells, r, power);
      assert Holder(Applied(rows, cells), r, power);
    }
    if SomebodyHolds(Applied(rows, cells), power) {
      var r :| Holder(Applied(rows, cells), r, power);
      AfterIsStored(rows, cells, r, power);
      assert HolderAfter(rows, cells, r, power);
    }
  }

  /** Written out: a save passes if it names no cell of the power, or some role's last row then allows it. */
  lemma PassesMeans(rows: seq<Cell>, cells: seq<Cell>, power: string)
    requires SoundRows(rows)
    ensures Passes(rows, cells, power)
       <==> || (forall x :: x in cells ==> x.capability != power)
            || (exists r :: LastAt(Applied(rows, cells), r, power).Some? && LastAt(Applied(rows, cells), r, power).value.effect == Allow)
  {
    GuardIsExact(rows, cells, power);
    if SomebodyHolds(Applied(rows, cells), power) {
      var r :| Holder(Applied(rows, cells), r, power);
      assert LastAt(Applied(rows, cells), r, power).Some?;
    }
    if r :| LastAt(Applied(rows, cells), r, power).Some? && LastAt(Applied(rows, cells), r, power).value.effect == Allow {
      AppliedHasScope(rows, cells, r, power);
      assert Holder(Applied(rows, cells), r, power);
    }
  }

  lemma AppliedHasScope(rows: seq<Cell>, cells: seq<Cell>, r: string, power: string)
    requires SoundRows(rows)
    ensures forall x :: x in RowsAt(Applied(rows, cells), r, power) ==> x.scope.Some?
  {
    SaveLaw(rows, cells, r, power);
    forall x | x in RowsAt(rows, r, power) ensures x.scope.Some? { FilterIn(rows, Is(r, power), x); }
  }

  /** Payloads in turn, each stored only if the guard lets it pass. */
  ghost function Saves(rows: seq<Cell>, payloads: seq<seq<Cell>>, power: string): seq<Cell> {
    if payloads == [] then rows
    else
      var so := Saves(rows, payloads[..|payloads| - 1], power);
      if Passes(so, payloads[|payloads| - 1], power) then Applied(so, payloads[|payloads| - 1]) else so
  }

  ghost predicate BarePayload(cells: seq<Cell>) {
    forall x :: x in cells ==> Bare(x.roleId)
  }

  lemma {:induction false} AppliedIsSound(rows: seq<Cell>, cells: seq<Cell>)
    requires SoundRows(rows) && BarePayload(cells)
    ensures SoundRows(Applied(rows, cells))
  {
    if cells != [] {
      var init, x := cells[..|cells| - 1], cells[|cells| - 1];
      assert x in cells && forall y :: y in init ==> y in cells;
      AppliedIsSound(rows, init);
      forall y | y in Put(Applied(rows, init), x) ensures Bare(y.roleId) && y.scope.Some? {
        FilterIn(Applied(rows, init), IsNot(x.roleId, x.capability), y);
      }
    }
  }

  /** One row for each role and capability. */
  ghost predicate Single(rows: seq<Cell>) {
    forall r, c :: |RowsAt(rows, r, c)| <= 1
  }

  lemma {:induction false} AppliedIsSingle(rows: seq<Cell>, cells: seq<Cell>)
    requires Single(rows)
    ensures Single(Applied(rows, cells))
  {
    forall r, c ensures |RowsAt(Applied(rows, cells), r, c)| <= 1 { SaveLaw(rows, cells, r, c); }
  }

  /** Over any run of guarded saves from a matrix where a role holds the power, some role still holds it. */
  lemma {:induction false} SomebodyAlwaysHolds(rows: seq<Cell>, payloads: seq<seq<Cell>>, power: string)
    requires SoundRows(rows) && Single(rows) && forall p :: p in payloads ==> BarePayload(p)
    requires exists r :: Holds(rows, r, power)
    ensures SoundRows(Saves(rows, payloads, power)) && Single(Saves(rows, payloads, power))
    ensures exists r :: Holds(Saves(rows, payloads, power), r, power)
  {
    if payloads != [] {
      var init, p := payloads[..|payloads| - 1], payloads[|payloads| - 1];
      assert p in payloads && forall q :: q in init ==> q in payloads;
      SomebodyAlwaysHolds(rows, init, power);
      var so := Saves(rows, init, power);
      if Passes(so, p, power) { SaveKeepsAHolder(so, p, power); }
    }
  }

  lemma SaveKeepsAHolder(rows: seq<Cell>, cells: seq<Cell>, power: string)
    requires SoundRows(rows) && Single(rows) && BarePayload(cells)
    requires Passes(rows, cells, power) && exists r :: Holds(rows, r, power)
    ensures SoundRows(Applied(rows, cells)) && Single(Applied(rows, cells))
    ensures exists r :: Holds(Applied(rows, cells), r, power)
  {
    AppliedIsSound(rows, cells);
    AppliedIsSingle(rows, cells);
    if Touches(cells, power) {
      GuardIsExact(rows, cells, power);
      var r :| Holder(Applied(rows, cells), r, power);
      HolderHolds(Applied(rows, cells), r, power);
    } else {
      var r :| Holds(rows, r, power);
      UntouchedStays(rows, cells, r, power);
      assert Holds(Applied(rows, cells), r, power);
    }
  }

  lemma HolderHolds(rows: seq<Cell>, r: string, power: string)
    requires Single(rows) && Holder(rows, r, power)
    ensures Holds(rows, r, power)
  {
    assert RowsAt(rows, r, power) == [LastAt(rows, r, power).value];
  }

  // ----- Real holders, on any table -----

  ghost predicate SomebodyReallyHolds(rows: seq<Cell>, power: string) {
    exists r :: Holds(rows, r, power)
  }

  /** The payload's last word on the role allows, or it has none and every row there is allows. */
  ghost predicate KeepsHolding(rows: seq<Cell>, cells: seq<Cell>, r: string, power: string) {
    if LastAt(cells, r, power).Some? then EffectOf(LastAt(cells, r, power)) == Some(Allow)
    else RowsAt(rows, r, power) != [] && forall x :: x in RowsAt(rows, r, power) ==> x.effect == Allow
  }

  ghost predicate SomebodyKeepsHolding(rows: seq<Cell>, cells: seq<Cell>, power: string) {
    exists r :: KeepsHolding(rows, cells, r, power)
  }

  /** On any table, a role holds the power after a save exactly when the payload and the rows let it. */
  lemma HoldsAfterSave(rows: seq<Cell>, cells: seq<Cell>, r: string, power: string)
    ensures Holds(Applied(rows, cells), r, power) <==> KeepsHolding(rows, cells, r, power)
  {
    SaveLaw(rows, cells, r, power);
    var there := RowsAt(Applied(rows, cells), r, power);
    assert there != [] ==> there[0] in there;
  }

  /** So some role does exactly when some role meets the condition. */
  lemma SomebodyAfterSave(rows: seq<Cell>, cells: seq<Cell>, power: string)
    ensures SomebodyReallyHolds(Applied(rows, cells), power) <==> SomebodyKeepsHolding(rows, cells, power)
  {
    if SomebodyReallyHolds(Applied(rows, cells), power) {
      var r :| Holds(Applied(rows, cells), r, power);
      HoldsAfterSave(rows, cells, r, power);
      assert KeepsHolding(rows, cells, r, power);
    }
    if SomebodyKeepsHolding(rows, cells, power) {
      var r :| KeepsHolding(rows, cells, r, power);
      HoldsAfterSave(rows, cells, r, power);
      assert Holds(Applied(rows, cells), r, power);
    }
  }

  /** A role the guard counts although a deny row that the payload leaves alone takes the power away. */
  ghost predicate CountedInVain(rows: seq<Cell>, cells: seq<Cell>, r: string, power: string) {
    LastAt(cells, r, power).None? && exists x :: x in RowsAt(rows, r, power) && x.effect == Deny
  }

  lemma CountedRole(rows: seq<Cell>, cells: seq<Cell>, r: string, power: string)
    requires SoundRows(rows)
    ensures KeepsHolding(rows, cells, r, power)
       <==> HolderAfter(rows, cells, r, power) && !CountedInVain(rows, cells, r, power)
  {
    var there := RowsAt(rows, r, power);
    if there != [] {
      assert there[|there| - 1] in there;
      FilterIn(rows, Is(r, power), there[|there| - 1]);
    }
  }

  /** A payload the guard passes leaves nobody exactly when it counts nobody but in vain. */
  lemma FooledExactly(rows: seq<Cell>, cells: seq<Cell>, power: string)
    requires SoundRows(rows)
    ensures !SomebodyReallyHolds(Applied(rows, cells), power)
       <==> forall r :: HolderAfter(rows, cells, r, power) ==> CountedInVain(rows, cells, r, power)
  {
    SomebodyAfterSave(rows, cells, power);
    forall r ensures KeepsHolding(rows, cells, r, power)
                <==> HolderAfter(rows, cells, r, power) && !CountedInVain(rows, cells, r, power) {
      CountedRole(rows, cells, r, power);
    }
    if SomebodyKeepsHolding(rows, cells, power) {
      var r :| KeepsHolding(rows, cells, r, power);
      assert HolderAfter(rows, cells, r, power) && !CountedInVain(rows, cells, r, power);
    }
    if r :| HolderAfter(rows, cells, r, power) && !CountedInVain(rows, cells, r, power) {
      assert KeepsHolding(rows, cells, r, power);
    }
  }

  /** Every payload of a run that the guard passes keeps some role holding, on the table it meets. */
  ghost predicate EverySaveKeeps(rows: seq<Cell>, payloads: seq<seq<Cell>>, power: string) {
    payloads == []
    || (var init, p := payloads[..|payloads| - 1], payloads[|payloads| - 1];
        && EverySaveKeeps(rows, init, power)
        && (Passes(Saves(rows, init, power), p, power) ==> SomebodyKeepsHolding(Saves(rows, init, power), p, power)))
  }

  /** Some role holds the power at every moment of a run. */
  ghost predicate AlwaysSomebody(rows: seq<Cell>, payloads: seq<seq<Cell>>, power: string) {
    SomebodyReallyHolds(Saves(rows, payloads, power), power)
    && (payloads != [] ==> AlwaysSomebody(rows, payloads[..|payloads| - 1], power))
  }

  /** From any table where a role holds the power, over any run: always somebody, exactly when every save keeps one. */
  lemma {:induction false} AlwaysSomebodyExactly(rows: seq<Cell>, payloads: seq<seq<Cell>>, power: string)
    requires SomebodyReallyHolds(rows, power)
    ensures AlwaysSomebody(rows, payloads, power) <==> EverySaveKeeps(rows, payloads, power)
  {
    if payloads != [] {
      var init, p := payloads[..|payloads| - 1], payloads[|payloads| - 1];
      AlwaysSomebodyExactly(rows, init, power);
      SomebodyAfterSave(Saves(rows, init, power), p, power);
      assert AlwaysSomebody(rows, init, power) ==> SomebodyReallyHolds(Saves(rows, init, power), power);
    }
  }

  /** Three rows: a role that is both denied and allowed, and one that is allowed. */
  function BothRows(r: string, q: string, power: string): seq<Cell> {
    [] + [Cell(r, power, Some(All), Deny, map[])] + [Cell(r, power, Some(All), Allow, map[])]
       + [Cell(q, power, Some(All), Allow, map[])]
  }

  function Removal(q: string, power: string): Cell { Cell(q, power, None, Allow, map[]) }

  lemma RowsSnoc(rows: seq<Cell>, x: Cell, r: string, power: string)
    ensures RowsAt(rows + [x], r, power) == RowsAt(rows, r, power) + if x.roleId == r && x.capability == power then [x] else []
  {
    FilterAppend(rows, [x], Is(r, power));
  }

  lemma BothRowsAt(r: string, q: string, power: string, x: string)
    requires r != q
    ensures RowsAt(BothRows(r, q, power), x, power)
         == if x == r then [Cell(r, power, Some(All), Deny, map[]), Cell(r, power, Some(All), Allow, map[])]
            else if x == q then [Cell(q, power, Some(All), Allow, map[])] else []
  {
    var deny, allow, kept := Cell(r, power, Some(All), Deny, map[]), Cell(r, power, Some(All), Allow, map[]), Cell(q, power, Some(All), Allow, map[]);
    RowsSnoc([], deny, x, power);
    RowsSnoc([] + [deny], allow, x, power);
    RowsSnoc([] + [deny] + [allow], kept, x, power);
  }

  lemma RemovalApplied(rows: seq<Cell>, q: string, power: string, x: string)
    ensures RowsAt(Applied(rows, [Removal(q, power)]), x, power) == if x == q then [] else RowsAt(rows, x, power)
    ensures After(rows, [Removal(q, power)], x, power) == if x == q then None else EffectOf(LastAt(rows, x, power))
  {
    var cells := [Removal(q, power)];
    assert cells == [] + [Removal(q, power)];
    SaveLaw(rows, cells, x, power);
    RowsSnoc([], Removal(q, power), x, power);
  }

  /** A role with a deny row and an allow row holds nothing, yet is counted: the last other holder can go. */
  lemma BothRowsFoolTheGuard(r: string, q: string, power: string)
    requires r != q
    ensures var rows, cells := BothRows(r, q, power), [Removal(q, power)];
            && Holds(rows, q, power) && SomebodyAfter(rows, cells, power)
            && forall x :: !Holds(Applied(rows, cells), x, power)
  {
    var rows, cells := BothRows(r, q, power), [Removal(q, power)];
    BothRowsAt(r, q, power, q);
    BothRowsAt(r, q, power, r);
    RemovalApplied(rows, q, power, r);
    var allowed := RowsAt(rows, q, power);
    assert allowed[0] in allowed;
    assert HolderAfter(rows, cells, r, power);
    forall x ensures !Holds(Applied(rows, cells), x, power) {
      BothRowsAt(r, q, power, x);
      RemovalApplied(rows, q, power, x);
      var there := RowsAt(Applied(rows, cells), x, power);
      assert x == r ==> there[0] in there && there[0].effect == Deny;
    }
  }

  // ----- What a choice of the menu comes to -----

  /** The last stored row of a cell has this scope and effect. */
  predicate Says(rows: seq<Cell>, r: string, c: string, scope: Scope, effect: Effect) {
    var last := LastAt(rows, r, c);
    last.Some? && last.value.scope == Some(scope) && last.value.effect == effect
  }

  /** A cell set that was that already is not sent and stays as stored; any other is one row afterwards, or none. */
  function Meant(rows: seq<Cell>, r: string, c: string, choice: Choice): seq<Cell> {
    match choice
    case Nothing => []
    case Blocked => if Says(rows, r, c, All, Deny) then RowsAt(rows, r, c) else [Cell(r, c, Some(All), Deny, map[])]
    case Give(s) => if Says(rows, r, c, s, Allow) then RowsAt(rows, r, c) else [Cell(r, c, Some(s), Allow, map[])]
  }

  lemma ChosenIsStored(rows: seq<Cell>, cells: Matrix, diff: seq<Cell>, r: string, c: string, choice: Choice)
    requires SoundRows(rows) && Sound(cells) && IsDiff(Loaded(rows), cells, diff) && Bare(r)
    requires At(cells, r, c) == Chosen(r, c, choice)
    ensures RowsAt(Applied(rows, diff), r, c) == Meant(rows, r, c, choice)
  {
    LoadLaw(rows, r, c);
    DiffAt(Loaded(rows), cells, diff, r, c);
    SaveLaw(rows, diff, r, c);
  }

  /** Whatever was edited before: after a cell is set and saved, its stored rows are what the choice meant. */
  lemma SetCellIsStored(rows: seq<Cell>, cells: Matrix, diff: seq<Cell>, r: string, c: string, choice: Choice)
    requires SoundRows(rows) && Sound(cells) && Bare(r)
    requires IsDiff(Loaded(rows), Written(cells, r, c, choice), diff)
    ensures RowsAt(Applied(rows, diff), r, c) == Meant(rows, r, c, choice)
  {
    WriteLaw(cells, r, c, choice, r, c);
    ChosenIsStored(rows, Written(cells, r, c, choice), diff, r, c, choice);
  }

  /** So it is for every listed role of a filled row; in any other role the row is gone. */
  lemma FilledRowIsStored(rows: seq<Cell>, cells: Matrix, roles: seq<string>, diff: seq<Cell>, r: string, c: string, choice: Choice)
    requires SoundRows(rows) && Sound(cells) && Bare(r) && forall x :: x in roles ==> Bare(x)
    requires IsDiff(Loaded(rows), Filled(cells, roles, c, choice), diff)
    ensures RowsAt(Applied(rows, diff), r, c) == if r in roles then Meant(rows, r, c, choice) else []
  {
    FillLaw(cells, roles, c, choice, r, c);
    ChosenIsStored(rows, Filled(cells, roles, c, choice), diff, r, c, if r in roles then choice else Nothing);
  }

  /** What was meant holds the power exactly when it was given, and no deny was left under a row that said so already. */
  lemma MeantHolds(rows: seq<Cell>, after: seq<Cell>, r: string, c: string, choice: Choice)
    requires RowsAt(after, r, c) == Meant(rows, r, c, choice)
    ensures Holds(after, r, c)
       <==> choice.Give? && (Says(rows, r, c, choice.scope, Allow) ==> forall x :: x in RowsAt(rows, r, c) ==> x.effect == Allow)
  {
    var there := RowsAt(rows, r, c);
    if there != [] { assert there[|there| - 1] in there; }
    if choice.Give? && !Says(rows, r, c, choice.scope, Allow) {
      assert RowsAt(after, r, c)[0] in RowsAt(after, r, c);
    }
  }

  /** Nothing and a block leave a role without the power; a scope gives it, on a table of one row a cell always. */
  lemma ChoiceDecides(rows: seq<Cell>, cells: Matrix, diff: seq<Cell>, r: string, c: string, choice: Choice)
    requires SoundRows(rows) && Sound(cells) && Bare(r)
    requires IsDiff(Loaded(rows), Written(cells, r, c, choice), diff)
    ensures !choice.Give? ==> !Holds(Applied(rows, diff), r, c)
    ensures choice.Give? && |RowsAt(rows, r, c)| <= 1 ==> Holds(Applied(rows, diff), r, c)
  {
    SetCellIsStored(rows, cells, diff, r, c, choice);
    MeantHolds(rows, Applied(rows, diff), r, c, choice);
  }
}
