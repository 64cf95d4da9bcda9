/** Moving the cursor over the rows. */
module RowCursor {
  import opened Basics
  import opened RowModel

  function IsSelectable(): Row -> bool {
    (row: Row) => row != Spacer
  }

  function IsSession(): Row -> bool {
    (row: Row) => row.SessionRow?
  }

  /** The first row at or beyond `start`, going by `step`, that satisfies `pred`. */
  function Scan(rows: seq<Row>, start: int, step: int, pred: Row -> bool): (found: Option<nat>)
    requires step == 1 || step == -1
    ensures found.Some? ==> found.value < |rows| && pred(rows[found.value])
    decreases if step == 1 then |rows| - start else start
  {
    if !(0 <= start < |rows|) then None
    else if pred(rows[start]) then Some(start)
    else Scan(rows, start + step, step, pred)
  }

  /** It is the first: nothing passed over satisfies `pred`. */
  lemma {:induction false} ScanIsFirst(rows: seq<Row>, start: int, step: int, pred: Row -> bool)
    requires step == 1 || step == -1
    ensures var found := Scan(rows, start, step, pred);
            && (found.Some? && step == 1 ==>
                  0 <= start <= found.value && forall i :: start <= i < found.value ==> !pred(rows[i]))
            && (found.Some? && step == -1 ==>
                  start >= found.value && forall i :: found.value < i <= start < |rows| ==> !pred(rows[i]))
            && (found.None? && step == 1 && start >= 0 ==> forall i :: start <= i < |rows| ==> !pred(rows[i]))
            && (found.None? && step == -1 && start < |rows| ==> forall i :: 0 <= i <= start ==> !pred(rows[i]))
    decreases if step == 1 then |rows| - start else start
  {
    if 0 <= start < |rows| && !pred(rows[start]) {
      ScanIsFirst(rows, start + step, step, pred);
    }
  }

  function OrElse(a: Option<nat>, b: Option<nat>): Option<nat> {
    if a.Some? then a else b
  }

  function Clamp(x: int, low: int, high: int): int
    requires low <= high
  {
    if x < low then low else if x > high then high else x
  }

  function Step(delta: int): int {
    if delta >= 0 then 1 else -1
  }

  /** Where the cursor goes: the nearest selectable row from the clamped target in the direction of
      travel, else the other way; a single step that cannot advance wraps to the other end. */
  function Moved(rows: seq<Row>, selected: nat, delta: int): nat {
    if rows == [] then 0
    else
      var step := Step(delta);
      var target := Clamp(selected + delta, 0, |rows| - 1);
      var chosen := OrElse(Scan(rows, target, step, IsSelectable()), Scan(rows, target, -step, IsSelectable()));
      if chosen.None? then selected
      else if delta == step && chosen.value == selected then
        var wrapped := Scan(rows, if step > 0 then 0 else |rows| - 1, step, IsSelectable());
        if wrapped.Some? then wrapped.value else chosen.value
      else chosen.value
  }

  /** Into bounds, and onto a session row if there is one, ahead if possible; else onto a header. */
  function Clamped(rows: seq<Row>, selected: nat): nat {
    if rows == [] then 0
    else
      var here := if selected >= |rows| then |rows| - 1 else selected;
      if rows[here].SessionRow? then here
      else
        var found := OrElse(Scan(rows, here, 1, IsSession()),
                            OrElse(Scan(rows, here - 1, -1, IsSession()),
                                   OrElse(Scan(rows, here, 1, IsSelectable()),
                                          Scan(rows, here - 1, -1, IsSelectable()))));
        if found.Some? then found.value else here
  }

  // ---------------------------------------------------------------- where the cursor may stand

  predicate Selectable(rows: seq<Row>, i: int) {
    0 <= i < |rows| && rows[i] != Spacer
  }

  /** On a selectable row whenever there is one; at zero in an empty list. */
  ghost predicate WellPlaced(rows: seq<Row>, selected: nat) {
    && (rows == [] ==> selected == 0)
    && ((exists i :: Selectable(rows, i)) ==> Selectable(rows, selected))
  }

  lemma MovedIsWellPlaced(rows: seq<Row>, selected: nat, delta: int)
    requires WellPlaced(rows, selected)
    ensures WellPlaced(rows, Moved(rows, selected, delta))
  {
  }

  lemma ClampedIsWellPlaced(rows: seq<Row>, selected: nat)
    ensures WellPlaced(rows, Clamped(rows, selected))
    ensures (exists i :: 0 <= i < |rows| && rows[i].SessionRow?) ==>
              Clamped(rows, selected) < |rows| && rows[Clamped(rows, selected)].SessionRow?
    ensures selected < |rows| && rows[selected].SessionRow? ==> Clamped(rows, selected) == selected
  {
    if rows != [] {
      var here: int := if selected >= |rows| then |rows| - 1 else selected;
      ScanIsFirst(rows, here, 1, IsSession());
      ScanIsFirst(rows, here - 1, -1, IsSession());
      ScanIsFirst(rows, here, 1, IsSelectable());
      ScanIsFirst(rows, here - 1, -1, IsSelectable());
      hide Scan;
      assert forall i :: Selectable(rows, i) ==> i >= here || i <= here - 1;
    }
  }

  /** `at` is the first place from `here` on, or the last one before `here`, that satisfies `pred`. */
  ghost predicate NextFrom(rows: seq<Row>, here: int, at: nat, pred: Row -> bool) {
    here <= at < |rows| && pred(rows[at]) && forall i :: 0 <= i < |rows| && here <= i < at ==> !pred(rows[i])
  }

  ghost predicate LastBefore(rows: seq<Row>, here: int, at: nat, pred: Row -> bool) {
    at < |rows| && at < here && pred(rows[at]) && forall i :: 0 <= i < |rows| && at < i < here ==> !pred(rows[i])
  }

  ghost predicate NoneFrom(rows: seq<Row>, here: int, pred: Row -> bool) {
    forall i :: 0 <= i < |rows| && here <= i ==> !pred(rows[i])
  }

  ghost predicate NoneBefore(rows: seq<Row>, here: int, pred: Row -> bool) {
    forall i :: 0 <= i < |rows| && i < here ==> !pred(rows[i])
  }

  lemma ScanDownIsNext(rows: seq<Row>, here: nat, pred: Row -> bool)
    ensures var found := Scan(rows, here, 1, pred);
            if found.Some? then NextFrom(rows, here, found.value, pred) else NoneFrom(rows, here, pred)
  {
    ScanIsFirst(rows, here, 1, pred);
  }

  lemma ScanUpIsLast(rows: seq<Row>, here: nat, pred: Row -> bool)
    requires here <= |rows|
    ensures var found := Scan(rows, here as int - 1, -1, pred);
            if found.Some? then LastBefore(rows, here, found.value, pred) else NoneBefore(rows, here, pred)
  {
    ScanIsFirst(rows, here as int - 1, -1, pred);
  }

  /** Clamping goes to the nearest session row ahead, else to the nearest behind, else to the nearest
      header ahead, else to the nearest behind; a session row inside the list stays selected. */
  lemma ClampedIsNearest(rows: seq<Row>, selected: nat)
    requires rows != []
    ensures var here, at := Min(selected, |rows| - 1), Clamped(rows, selected);
            || NextFrom(rows, here, at, IsSession())
            || (NoneFrom(rows, here, IsSession()) && LastBefore(rows, here, at, IsSession()))
            || (NoneFrom(rows, 0, IsSession())
                && (|| NextFrom(rows, here, at, IsSelectable())
                    || (NoneFrom(rows, here, IsSelectable()) && LastBefore(rows, here, at, IsSelectable()))
                    || (NoneFrom(rows, 0, IsSelectable()) && at == here)))
  {
    hide Scan;
    var here := Min(selected, |rows| - 1);
    ScanDownIsNext(rows, here, IsSession());
    ScanUpIsLast(rows, here, IsSession());
    ScanDownIsNext(rows, here, IsSelectable());
    ScanUpIsLast(rows, here, IsSelectable());
  }

  /** Moving by other than one row goes to the nearest selectable row from the target on in the direction
      of travel, else to the nearest on the way to it. */
  lemma MovedIsNearest(rows: seq<Row>, selected: nat, delta: int)
    requires rows != [] && delta != 1 && delta != -1
    ensures var target, at := Max(0, Min(selected + delta, |rows| - 1)), Moved(rows, selected, delta);
            || (NoneFrom(rows, 0, IsSelectable()) && at == selected)
            || (delta >= 0 && (|| NextFrom(rows, target, at, IsSelectable())
                               || (NoneFrom(rows, target, IsSelectable())
                                   && LastBefore(rows, target + 1, at, IsSelectable()))))
            || (delta < 0 && (|| LastBefore(rows, target + 1, at, IsSelectable())
                              || (NoneBefore(rows, target + 1, IsSelectable())
                                  && NextFrom(rows, target, at, IsSelectable()))))
  {
    hide Scan;
    var target := Max(0, Min(selected + delta, |rows| - 1));
    ScanDownIsNext(rows, target, IsSelectable());
    ScanUpIsLast(rows, target + 1, IsSelectable());
  }

  // ---------------------------------------------------------------- Down and Up go round

  /** The places of the selectable rows, from the top. */
  function Places(rows: seq<Row>): (places: seq<nat>)
    ensures forall i :: i in places <==> Selectable(rows, i)
    ensures forall a, b :: 0 <= a < b < |places| ==> places[a] < places[b]
  {
    if rows == [] then []
    else
      var init, last := rows[..|rows| - 1], |rows| - 1;
      assert forall i :: Selectable(init, i) <==> Selectable(rows, i) && i != last;
      var before := Places(init);
      assert forall a :: 0 <= a < |before| ==> before[a] in before;
      before + if rows[last] != Spacer then [last] else []
  }

  /** Scanning down from anywhere after place `k - 1` up to place `k` finds place `k`. */
  lemma ScanDownFinds(rows: seq<Row>, start: nat, k: nat)
    requires k < |Places(rows)| && start <= Places(rows)[k] && (k > 0 ==> Places(rows)[k - 1] < start)
    ensures Scan(rows, start, 1, IsSelectable()) == Some(Places(rows)[k])
  {
    var places := Places(rows);
    assert places[k] in places;
    ScanIsFirst(rows, start, 1, IsSelectable());
    var found := Scan(rows, start, 1, IsSelectable());
    assert Selectable(rows, found.value);
    var m :| 0 <= m < |places| && places[m] == found.value;
  }

  lemma ScanUpFinds(rows: seq<Row>, start: nat, k: nat)
    requires k < |Places(rows)| && Places(rows)[k] <= start < |rows|
    requires k + 1 < |Places(rows)| ==> start < Places(rows)[k + 1]
    ensures Scan(rows, start, -1, IsSelectable()) == Some(Places(rows)[k])
  {
    var places := Places(rows);
    assert places[k] in places;
    ScanIsFirst(rows, start, -1, IsSelectable());
    var found := Scan(rows, start, -1, IsSelectable());
    assert Selectable(rows, found.value);
    var m :| 0 <= m < |places| && places[m] == found.value;
  }

  /** One further round a circle of `n` places, from less than twice round. */
  function Round(x: nat, n: nat): nat {
    if x < n then x else x - n
  }

  lemma DownGoesToNext(rows: seq<Row>, k: nat)
    requires k < |Places(rows)|
    ensures Moved(rows, Places(rows)[k], 1) == Places(rows)[Round(k + 1, |Places(rows)|)]
  {
    hide Scan;
    var places := Places(rows);
    var n, here := |places|, places[k];
    assert here in places && Selectable(rows, here);
    ScanDownFinds(rows, 0, 0);
    if k + 1 < n {
      assert places[k + 1] in places;
      ScanDownFinds(rows, here + 1, k + 1);
    } else {
      NothingBelow(rows, k);
      var target := Clamp(here + 1, 0, |rows| - 1);
      ScanUpFinds(rows, target, k);
      if target == here { ScanDownFinds(rows, target, k); }
    }
  }

  lemma NothingBelow(rows: seq<Row>, k: nat)
    requires k == |Places(rows)| - 1
    ensures Scan(rows, Places(rows)[k] + 1, 1, IsSelectable()) == None
  {
    ScanIsFirst(rows, Places(rows)[k] + 1, 1, IsSelectable());
    var found := Scan(rows, Places(rows)[k] + 1, 1, IsSelectable());
    assert found.Some? ==> Selectable(rows, found.value);
  }

  lemma UpGoesToPrevious(rows: seq<Row>, k: nat)
    requires k < |Places(rows)|
    ensures Moved(rows, Places(rows)[k], -1) == Places(rows)[Round(k + |Places(rows)| - 1, |Places(rows)|)]
  {
    hide Scan, Places;
    var places := Places(rows);
    assert places[k] in places && Selectable(rows, places[k]);
    if k > 0 {
      assert places[k - 1] < places[k];
      ScanUpFinds(rows, places[k] - 1, k - 1);
    } else {
      UpWraps(rows);
    }
  }

  lemma UpWraps(rows: seq<Row>)
    requires Places(rows) != []
    ensures Moved(rows, Places(rows)[0], -1) == Places(rows)[|Places(rows)| - 1]
  {
    hide Scan, Places;
    var places := Places(rows);
    var n, here := |places|, places[0];
    assert here in places && Selectable(rows, here);
    assert places[n - 1] in places;
    ScanUpFinds(rows, |rows| - 1, n - 1);
    NothingAbove(rows);
    if here == 0 {
      ScanUpFinds(rows, 0, 0);
    } else {
      ScanDownFinds(rows, here - 1, 0);
    }
  }

  lemma NothingAbove(rows: seq<Row>)
    requires Places(rows) != []
    ensures Scan(rows, Places(rows)[0] as int - 1, -1, IsSelectable()) == None
  {
    ScanIsFirst(rows, Places(rows)[0] as int - 1, -1, IsSelectable());
    var found := Scan(rows, Places(rows)[0] as int - 1, -1, IsSelectable());
    assert found.Some? ==> Selectable(rows, found.value);
  }

  /** On the selectable rows Down and Up undo each other. */
  lemma UpUndoesDown(rows: seq<Row>, selected: nat)
    requires Selectable(rows, selected)
    ensures Moved(rows, Moved(rows, selected, 1), -1) == selected
    ensures Moved(rows, Moved(rows, selected, -1), 1) == selected
  {
    hide Moved, Places;
    var places := Places(rows);
    var k :| 0 <= k < |places| && places[k] == selected;
    var n := |places|;
    DownGoesToNext(rows, k);
    UpGoesToPrevious(rows, Round(k + 1, n));
    UpGoesToPrevious(rows, k);
    DownGoesToNext(rows, Round(k + n - 1, n));
  }

  function Presses(rows: seq<Row>, selected: nat, count: nat): nat {
    if count == 0 then selected else Moved(rows, Presses(rows, selected, count - 1), 1)
  }

  lemma {:induction false} PressesAdvance(rows: seq<Row>, k: nat, count: nat)
    requires k < |Places(rows)| && k + count < 2 * |Places(rows)|
    ensures Presses(rows, Places(rows)[k], count) == Places(rows)[Round(k + count, |Places(rows)|)]
  {
    hide Moved, Places;
    if count > 0 {
      PressesAdvance(rows, k, count - 1);
      DownGoesToNext(rows, Round(k + count - 1, |Places(rows)|));
    }
  }

  /** As many presses of Down as there are selectable rows come back to the start, and every
      selectable row is reached by fewer. */
  lemma DownVisitsAll(rows: seq<Row>, selected: nat, goal: nat)
    requires Selectable(rows, selected) && Selectable(rows, goal)
    ensures Presses(rows, selected, |Places(rows)|) == selected
    ensures exists count :: 0 <= count < |Places(rows)| && Presses(rows, selected, count) == goal
  {
    hide Presses, Places;
    var places := Places(rows);
    var n := |places|;
    var k :| 0 <= k < n && places[k] == selected;
    var g :| 0 <= g < n && places[g] == goal;
    PressesAdvance(rows, k, n);
    PressesAdvance(rows, k, if g >= k then g - k else g + n - k);
  }
}
