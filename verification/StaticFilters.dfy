/** The list of static filters and the driver's table that it mirrors. The driver may refuse any call. */
module StaticFilters {
  import opened Basics

  /** m_TableSize is a 32-bit number. */
  const MAX_TABLE_SIZE := 0xFFFF_FFFF

  /** A filter of one of the two address types. */
  datatype Filter = V4(rule: nat) | V6(rule: nat)

  /** filters_ and the driver's table. */
  datatype Tables = Tables(filters: seq<Filter>, driver: seq<Filter>)

  function InsertAt<T>(s: seq<T>, position: nat, x: T): seq<T>
    requires position <= |s|
  {
    s[..position] + [x] + s[position..]
  }

  /** The driver never has fewer filters than the list. */
  predicate IsPlausible(t: Tables) {
    |t.filters| <= |t.driver| <= MAX_TABLE_SIZE
  }

  // ---------------------------------------------------------------------------------
  // Operations
  // ---------------------------------------------------------------------------------

  function Add(t: Tables, f: Filter, listPosition: nat, driverPosition: nat, agrees: bool): Tables
    requires listPosition <= |t.filters| && driverPosition <= |t.driver|
  {
    if agrees && |t.driver| < MAX_TABLE_SIZE then
      Tables(InsertAt(t.filters, listPosition, f), InsertAt(t.driver, driverPosition, f))
    else t
  }

  function AddFront(t: Tables, f: Filter, agrees: bool): Tables {
    Add(t, f, 0, 0, agrees)
  }

  function AddBack(t: Tables, f: Filter, agrees: bool): Tables {
    Add(t, f, |t.filters|, |t.driver|, agrees)
  }

  function Insert(t: Tables, f: Filter, position: nat, agrees: bool): Tables
    requires IsPlausible(t)
  {
    if position > |t.filters| then t else Add(t, f, position, position, agrees)
  }

  function Remove(t: Tables, position: nat, agrees: bool): Tables
    requires IsPlausible(t)
  {
    if position < |t.filters| && agrees then Tables(RemoveAt(t.filters, position), RemoveAt(t.driver, position)) else t
  }

  predicate IsSelected(f: Filter, v4: bool, matching: set<Filter>) {
    f.V4? == v4 && f in matching
  }

  /**
    The loop of remove_filters_if at `position`, with `seen` entries visited before. `refused` are the entries, by
    their original position, that the driver does not give up.
   */
  function Sweep(t: Tables, position: nat, seen: nat, v4: bool, matching: set<Filter>, refused: set<nat>): Tables
    requires IsPlausible(t) && position <= |t.filters|
    decreases |t.filters| - position
  {
    if position == |t.filters| then t
    else if IsSelected(t.filters[position], v4, matching) && seen !in refused then
      Sweep(Remove(t, position, true), position, seen + 1, v4, matching, refused)
    else
      Sweep(t, position + 1, seen + 1, v4, matching, refused)
  }

  function Reset(t: Tables, agrees: bool): Tables {
    Tables([], if agrees then [] else t.driver)
  }

  // ---------------------------------------------------------------------------------
  // Conditional removal
  // ---------------------------------------------------------------------------------

  /** The filters that stay, in order: those not selected, and those the driver does not give up. */
  function Unremoved(filters: seq<Filter>, seen: nat, v4: bool, matching: set<Filter>, refused: set<nat>): seq<Filter> {
    if filters == [] then []
    else
      (if IsSelected(filters[0], v4, matching) && seen !in refused then [] else [filters[0]])
      + Unremoved(filters[1..], seen + 1, v4, matching, refused)
  }

  lemma RemoveSplits<T>(s: seq<T>, position: nat)
    requires position < |s|
    ensures RemoveAt(s, position)[..position] == s[..position]
    ensures RemoveAt(s, position)[position..] == s[position..][1..]
    ensures s[position + 1..] == s[position..][1..]
    ensures s[..position + 1] == s[..position] + [s[position]]
  {
  }

  /** From the list alone: what the loop has passed stays, and of the rest exactly the removable filters go. */
  lemma {:induction false} SweepRemovesSelected(
      t: Tables, position: nat, seen: nat, v4: bool, matching: set<Filter>, refused: set<nat>)
    requires IsPlausible(t) && position <= |t.filters|
    ensures Sweep(t, position, seen, v4, matching, refused).filters
            == t.filters[..position] + Unremoved(t.filters[position..], seen, v4, matching, refused)
    decreases |t.filters| - position
  {
    if position < |t.filters| {
      RemoveSplits(t.filters, position);
      if IsSelected(t.filters[position], v4, matching) && seen !in refused {
        SweepRemovesSelected(Remove(t, position, true), position, seen + 1, v4, matching, refused);
      } else {
        SweepRemovesSelected(t, position + 1, seen + 1, v4, matching, refused);
      }
    }
  }

  /** The driver is always told the index its own copy of the entry has. */
  lemma {:induction false} SweepKeepsMirror(
      t: Tables, position: nat, seen: nat, v4: bool, matching: set<Filter>, refused: set<nat>)
    requires IsPlausible(t) && position <= |t.filters|
    ensures var t' := Sweep(t, position, seen, v4, matching, refused);
            && IsPlausible(t') && |t'.driver| - |t'.filters| == |t.driver| - |t.filters|
            && (t.driver == t.filters ==> t'.driver == t'.filters)
    decreases |t.filters| - position
  {
    if position < |t.filters| {
      if IsSelected(t.filters[position], v4, matching) && seen !in refused {
        SweepKeepsMirror(Remove(t, position, true), position, seen + 1, v4, matching, refused);
      } else {
        SweepKeepsMirror(t, position + 1, seen + 1, v4, matching, refused);
      }
    }
  }

  /** remove_filters_if as a whole, on a list that mirrors the driver. */
  lemma RemoveIfRemovesExactly(t: Tables, v4: bool, matching: set<Filter>, refused: set<nat>)
    requires IsPlausible(t) && t.filters == t.driver
    ensures var t' := Sweep(t, 0, 0, v4, matching, refused);
            t'.filters == t'.driver && t'.filters == Unremoved(t.filters, 0, v4, matching, refused)
  {
    SweepRemovesSelected(t, 0, 0, v4, matching, refused);
    SweepKeepsMirror(t, 0, 0, v4, matching, refused);
    assert t.filters[0..] == t.filters;
  }

  /** When the driver refuses nothing, exactly the matching filters of the chosen address type are gone. */
  lemma {:induction false} AgreedSweep(filters: seq<Filter>, seen: nat, v4: bool, matching: set<Filter>)
    ensures forall f ::
              multiset(Unremoved(filters, seen, v4, matching, {}))[f]
              == if f.V4? == v4 && f in matching then 0 else multiset(filters)[f]
  {
    if filters != [] {
      AgreedSweep(filters[1..], seen + 1, v4, matching);
      assert filters == [filters[0]] + filters[1..];
    }
  }

  /** A filter on its own stays unless it matches, is of the chosen type, and the driver gives it up. */
  lemma OneUnremoved(f: Filter, seen: nat, v4: bool, matching: set<Filter>, refused: set<nat>)
    ensures Unremoved([f], seen, v4, matching, refused)
            == if f.V4? == v4 && f in matching && seen !in refused then [] else [f]
  {
  }

  lemma UnremovedSplits(filters: seq<Filter>, seen: nat, v4: bool, matching: set<Filter>, refused: set<nat>)
    requires filters != []
    ensures Unremoved(filters, seen, v4, matching, refused)
            == Unremoved([filters[0]], seen, v4, matching, refused)
               + Unremoved(filters[1..], seen + 1, v4, matching, refused)
  {
    OneUnremoved(filters[0], seen, v4, matching, refused);
  }

  /** What stays of a front and of a back of the list stays in that order. */
  lemma {:induction false} UnremovedInOrder(
      front: seq<Filter>, back: seq<Filter>, seen: nat, v4: bool, matching: set<Filter>, refused: set<nat>)
    ensures Unremoved(front + back, seen, v4, matching, refused)
            == Unremoved(front, seen, v4, matching, refused) + Unremoved(back, seen + |front|, v4, matching, refused)
  {
    if front == [] {
      assert front + back == back;
    } else {
      UnremovedInOrder(front[1..], back, seen + 1, v4, matching, refused);
      UnremovedSplits(front, seen, v4, matching, refused);
      UnremovedSplits(front + back, seen, v4, matching, refused);
      assert (front + back)[0] == front[0] && (front + back)[1..] == front[1..] + back;
    }
  }

  // ---------------------------------------------------------------------------------
  // Runs
  // ---------------------------------------------------------------------------------

  datatype Call =
    | CallAddFront(f: Filter, agrees: bool)
    | CallAddBack(f: Filter, agrees: bool)
    | CallInsert(f: Filter, position: uint32, agrees: bool)
    | CallRemove(position: uint32, agrees: bool)
    | CallRemoveIf(v4: bool, matching: set<Filter>, refused: set<nat>)
    | CallReset(agrees: bool)

  function Apply(t: Tables, c: Call): Tables
    requires IsPlausible(t)
  {
    match c
    case CallAddFront(f, agrees) => AddFront(t, f, agrees)
    case CallAddBack(f, agrees) => AddBack(t, f, agrees)
    case CallInsert(f, position, agrees) => Insert(t, f, position, agrees)
    case CallRemove(position, agrees) => Remove(t, position, agrees)
    case CallRemoveIf(v4, matching, refused) => Sweep(t, 0, 0, v4, matching, refused)
    case CallReset(agrees) => Reset(t, agrees)
  }

  lemma ApplyKeepsPlausible(t: Tables, c: Call)
    requires IsPlausible(t)
    ensures var t' := Apply(t, c);
            && IsPlausible(t')
            && (!c.CallReset? ==>
                  && |t'.driver| - |t'.filters| == |t.driver| - |t.filters|
                  && (t.driver == t.filters ==> t'.driver == t'.filters))
  {
    if c.CallRemoveIf? {
      SweepKeepsMirror(t, 0, 0, c.v4, c.matching, c.refused);
    }
  }

  /** s' is s with x at this position. */
  predicate HasInserted<T(==)>(s: seq<T>, position: nat, x: T, s': seq<T>) {
    && position <= |s| && |s'| == |s| + 1
    && s'[..position] == s[..position] && s'[position] == x && s'[position + 1..] == s[position..]
  }

  /** A filter goes to the front of both tables, to the back of both, or to the same position of both. */
  lemma AddedWhere(t: Tables, c: Call)
    requires IsPlausible(t) && (c.CallAddFront? || c.CallAddBack? || c.CallInsert?)
    ensures var t' := Apply(t, c);
            var fits := c.agrees && |t.driver| < 0xFFFF_FFFF && (c.CallInsert? ==> c.position <= |t.filters|);
            && (fits && c.CallAddFront? ==> t'.filters == [c.f] + t.filters && t'.driver == [c.f] + t.driver)
            && (fits && c.CallAddBack? ==> t'.filters == t.filters + [c.f] && t'.driver == t.driver + [c.f])
            && (fits && c.CallInsert? ==>
                  && HasInserted(t.filters, c.position, c.f, t'.filters)
                  && HasInserted(t.driver, c.position, c.f, t'.driver))
            && (!fits ==> t' == t)
  {
  }

  /** A removal takes the filter at its position out of both tables, a reset all; neither touches others. */
  lemma RemovedWhere(t: Tables, c: Call)
    requires IsPlausible(t) && (c.CallRemove? || c.CallReset?)
    ensures var t' := Apply(t, c);
            if c.CallReset? then t'.filters == [] && t'.driver == if c.agrees then [] else t.driver
            else if c.agrees && c.position < |t.filters| then
              && HasInserted(t'.filters, c.position, t.filters[c.position], t.filters)
              && HasInserted(t'.driver, c.position, t.driver[c.position], t.driver)
            else t' == t
  {
  }

  /** The tables after a sequence of calls, with an empty list and what the driver held at the start. */
  function Run(driver: seq<Filter>, calls: seq<Call>): (t: Tables)
    requires |driver| <= MAX_TABLE_SIZE
    ensures IsPlausible(t)
  {
    if calls == [] then Tables([], driver)
    else
      ApplyKeepsPlausible(Run(driver, DropLast(calls)), Last(calls));
      Apply(Run(driver, DropLast(calls)), Last(calls))
  }

  /** The number of filters the driver held when the list was last emptied without it. */
  function Strays(driver: seq<Filter>, calls: seq<Call>): nat
    requires |driver| <= MAX_TABLE_SIZE
  {
    if calls == [] then |driver|
    else if !Last(calls).CallReset? then Strays(driver, DropLast(calls))
    else if Last(calls).agrees then 0
    else |Run(driver, DropLast(calls)).driver|
  }

  /**
    The list equals the driver's table, in order, exactly when no filter has been left behind: a reset that the
    driver refuses empties the list all the same, and no later call but a successful reset repairs that.
   */
  lemma {:induction false} MirrorsIffNoStrays(driver: seq<Filter>, calls: seq<Call>)
    requires |driver| <= MAX_TABLE_SIZE
    ensures var t := Run(driver, calls);
            && |t.driver| == |t.filters| + Strays(driver, calls)
            && (t.filters == t.driver <==> Strays(driver, calls) == 0)
  {
    if calls != [] {
      MirrorsIffNoStrays(driver, DropLast(calls));
      ApplyKeepsPlausible(Run(driver, DropLast(calls)), Last(calls));
    }
  }

  /** From an empty driver, any calls but refused resets keep the mirror. */
  lemma {:induction false} MirrorsWithoutRefusedReset(calls: seq<Call>)
    requires forall i :: 0 <= i < |calls| && calls[i].CallReset? ==> calls[i].agrees
    ensures Run([], calls).filters == Run([], calls).driver
  {
    if calls != [] {
      MirrorsWithoutRefusedReset(DropLast(calls));
      ApplyKeepsPlausible(Run([], DropLast(calls)), Last(calls));
    }
  }

  // ---------------------------------------------------------------------------------
  // The filter list object
  // ---------------------------------------------------------------------------------

  class Driver {
    var table: seq<Filter>

    predicate Valid()
      reads this
    {
      |table| <= MAX_TABLE_SIZE
    }

    constructor ()
      ensures table == []
    {
      table := [];
    }

    method Insert(f: Filter, position: nat, agrees: bool) returns (ok: bool)
      requires Valid() && position <= |table|
      modifies this
      ensures Valid() && (ok <==> agrees && |old(table)| < MAX_TABLE_SIZE)
      ensures table == if ok then InsertAt(old(table), position, f) else old(table)
    {
      ok := agrees && |table| < MAX_TABLE_SIZE;
      if ok { table := InsertAt(table, position, f); }
    }

    method Remove(position: uint32, agrees: bool) returns (ok: bool)
      requires Valid() && position < |table|
      modifies this
      ensures Valid() && ok == agrees
      ensures table == if ok then RemoveAt(old(table), position) else old(table)
    {
      ok := agrees;
      if ok { table := RemoveAt(table, position); }
    }

    method Reset(agrees: bool) returns (ok: bool)
      requires Valid()
      modifies this
      ensures Valid() && ok == agrees && table == if ok then [] else old(table)
    {
      ok := agrees;
      if ok { table := []; }
    }
  }

  class FilterList {
    var filters: seq<Filter>
    const driver: Driver

    ghost function State(): Tables
      reads this, driver
    {
      Tables(filters, driver.table)
    }

    ghost predicate Valid()
      reads this, driver
    {
      IsPlausible(State())
    }

    constructor (driver: Driver)
      requires driver.Valid()
      ensures Valid() && this.driver == driver && State() == Run(driver.table, [])
    {
      this.driver := driver;
      filters := [];
    }

    method AddFilterFront(f: Filter, agrees: bool) returns (ok: bool)
      requires Valid()
      modifies this, driver
      ensures Valid() && State() == Apply(old(State()), CallAddFront(f, agrees))
      ensures ok <==> State() != old(State())
    {
      ok := driver.Insert(f, 0, agrees);
      if ok { filters := [f] + filters; }
    }

    method AddFilterBack(f: Filter, agrees: bool) returns (ok: bool)
      requires Valid()
      modifies this, driver
      ensures Valid() && State() == Apply(old(State()), CallAddBack(f, agrees))
      ensures ok <==> State() != old(State())
    {
      ok := driver.Insert(f, |driver.table|, agrees);
      if ok { filters := filters + [f]; }
    }

    method InsertFilter(f: Filter, position: uint32, agrees: bool) returns (ok: bool)
      requires Valid()
      modifies this, driver
      ensures Valid() && State() == Apply(old(State()), CallInsert(f, position, agrees))
      ensures ok <==> State() != old(State())
    {
      if position > |filters| {
        return false;
      }
      ok := driver.Insert(f, position, agrees);
      if ok { filters := filters[..position] + [f] + filters[position..]; }
    }

    method RemoveFilter(position: uint32, agrees: bool) returns (ok: bool)
      requires Valid()
      modifies this, driver
      ensures Valid() && State() == Apply(old(State()), CallRemove(position, agrees))
      ensures ok <==> State() != old(State())
    {
      if position >= |filters| {
        return false;
      }
      ok := driver.Remove(position, agrees);
      if ok { filters := RemoveAt(filters, position); }
    }

    /** What remove_filters_if does to the entry at `position`. */
    method VisitFilter(position: nat, v4: bool, matching: set<Filter>, agrees: bool) returns (removed: bool)
      requires Valid() && position < |filters|
      modifies this, driver
      ensures Valid() && (removed <==> IsSelected(old(filters[position]), v4, matching) && agrees)
      ensures State() == if removed then Remove(old(State()), position, true) else old(State())
    {
      removed := false;
      if filters[position].V4? == v4 && filters[position] in matching {
        removed := driver.Remove(position, agrees);
      }
      if removed { filters := RemoveAt(filters, position); }
    }

    /** One round of the loop: the entry goes, or the position moves on. */
    method SweepOne(position: nat, seen: nat, v4: bool, matching: set<Filter>, refused: set<nat>) returns (next: nat)
      requires Valid() && position < |filters|
      modifies this, driver
      ensures Valid() && next <= |filters| && |filters| - next == |old(filters)| - position - 1
      ensures Sweep(State(), next, seen + 1, v4, matching, refused)
              == Sweep(old(State()), position, seen, v4, matching, refused)
    {
      var removed := VisitFilter(position, v4, matching, seen !in refused);
      next := if removed then position else position + 1;
    }

    method RemoveFiltersIf(v4: bool, matching: set<Filter>, refused: set<nat>)
      requires Valid()
      modifies this, driver
      ensures Valid() && State() == Apply(old(State()), CallRemoveIf(v4, matching, refused))
    {
      ghost var was := State();
      var position, seen := 0, 0;
      while position < |filters|
        invariant Valid() && 0 <= position <= |filters|
        invariant Sweep(State(), position, seen, v4, matching, refused) == Sweep(was, 0, 0, v4, matching, refused)
        decreases |filters| - position
      {
        position := SweepOne(position, seen, v4, matching, refused);
        seen := seen + 1;
      }
    }

    method Reset(agrees: bool) returns (ok: bool)
      requires Valid()
      modifies this, driver
      ensures Valid() && State() == Apply(old(State()), CallReset(agrees)) && ok == agrees
    {
      filters := [];
      ok := driver.Reset(agrees);
    }
  }
}
