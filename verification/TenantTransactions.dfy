/**
 * Sessions used through tenant transactions: the scope is bound for the block,
 * unbound before the commit-time flush, and every flush passes the guard.
 */
module TenantTransactions {
  import opened Wrappers
  import opened Uuids
  import opened TenantIsolation

  /** An object waiting to be written: new, dirty or deleted. */
  datatype Item = TenantItem(row: Row) | OtherItem(name: string)

  /** An item as it was flushed, with the scope that was bound at that moment. */
  datatype Flushed = Flushed(item: Item, scope: Option<TenantScope>)

  /** What the code inside the block may do; a flush error may be caught there. */
  datatype Action = Touch(item: Item) | Flush(caught: bool) | Raise

  datatype Snapshot = Snapshot(
    bound: Option<TenantScope>,
    pending: seq<Item>,
    flushed: seq<Flushed>,       // written in the open transaction
    committed: seq<Flushed>)

  predicate MayFlush(bound: Option<TenantScope>, item: Item) {
    item.TenantItem? ==> bound.Some? && Allows(bound.value, item.row)
  }

  predicate AllMayFlush(bound: Option<TenantScope>, items: seq<Item>) {
    forall i | 0 <= i < |items| :: MayFlush(bound, items[i])
  }

  predicate HasTenantItem(items: seq<Item>) {
    exists i | 0 <= i < |items| :: items[i].TenantItem?
  }

  function Stamp(items: seq<Item>, bound: Option<TenantScope>): seq<Flushed> {
    seq(|items|, i requires 0 <= i < |items| => Flushed(items[i], bound))
  }

  // ---------------------------------------------------------------- specification

  /** A flush either writes everything that is pending or, refused by the guard, nothing. */
  function FlushSpec(s: Snapshot): Snapshot {
    if AllMayFlush(s.bound, s.pending)
    then Snapshot(s.bound, [], s.flushed + Stamp(s.pending, s.bound), s.committed)
    else s
  }

  /** The block; the second component says whether it ends with an exception. */
  function BlockSpec(s: Snapshot, actions: seq<Action>): (Snapshot, bool)
    decreases |actions|
  {
    if actions == [] then (s, false)
    else
      match actions[0]
      case Touch(item) => BlockSpec(s.(pending := s.pending + [item]), actions[1..])
      case Flush(caught) =>
        if !AllMayFlush(s.bound, s.pending) && !caught then (s, true)
        else BlockSpec(FlushSpec(s), actions[1..])
      case Raise => (s, true)
  }

  function RolledBack(s: Snapshot): Snapshot {
    Snapshot(None, [], [], s.committed)
  }

  /** Begin, bind, run the block, unbind, then flush and commit, or roll back. */
  function TransactionSpec(s: Snapshot, scope: TenantScope, actions: seq<Action>): Snapshot {
    var (end, raised) := BlockSpec(s.(bound := Some(scope), flushed := []), actions);
    var unbound := end.(bound := None);
    if raised || !AllMayFlush(None, unbound.pending) then RolledBack(unbound)
    else
      var done := FlushSpec(unbound);
      Snapshot(None, [], [], done.committed + done.flushed)
  }

  // ---------------------------------------------------------------- the session

  class Session {
    var bound: Option<TenantScope>
    var pending: seq<Item>
    var flushed: seq<Flushed>
    var committed: seq<Flushed>

    constructor ()
      ensures Now() == Snapshot(None, [], [], [])
    {
      bound, pending, flushed, committed := None, [], [], [];
    }

    function Now(): Snapshot
      reads this
    {
      Snapshot(bound, pending, flushed, committed)
    }

    /** The before-flush hook: false when it raises. */
    method EnforceScopeOnFlush() returns (ok: bool)
      ensures ok == AllMayFlush(bound, pending)
    {
      for i := 0 to |pending|
        invariant AllMayFlush(bound, pending[..i])
      {
        if pending[i].TenantItem? {
          if bound.None? || !Allows(bound.value, pending[i].row) {
            return false;
          }
        }
      }
      return true;
    }

    method Flush() returns (ok: bool)
      modifies this
      ensures ok == old(AllMayFlush(bound, pending))
      ensures Now() == FlushSpec(old(Now()))
    {
      ok := EnforceScopeOnFlush();
      if ok {
        flushed, pending := flushed + Stamp(pending, bound), [];
      }
    }

    method Rollback()
      modifies this
      ensures Now() == RolledBack(old(Now()))
    {
      bound, pending, flushed := None, [], [];
    }

    method Block(actions: seq<Action>) returns (raised: bool)
      modifies this
      ensures (Now(), raised) == BlockSpec(old(Now()), actions)
    {
      for i := 0 to |actions|
        invariant BlockSpec(Now(), actions[i..]) == BlockSpec(old(Now()), actions)
      {
        assert actions[i..][0] == actions[i] && actions[i..][1..] == actions[i + 1..];
        match actions[i]
        case Touch(item) =>
          pending := pending + [item];
        case Flush(caught) =>
          var ok := Flush();
          if !ok && !caught {
            return true;
          }
        case Raise =>
          return true;
      }
      return false;
    }

    /** One `with tenant_transaction(session, scope)`; the session must not be in a transaction. */
    method TenantTransaction(scope: TenantScope, actions: seq<Action>)
      modifies this
      ensures Now() == TransactionSpec(old(Now()), scope, actions)
    {
      bound, flushed := Some(scope), [];
      var raised := Block(actions);
      bound := None;
      if raised {
        Rollback();
        return;
      }
      var ok := Flush();
      if !ok {
        Rollback();
        return;
      }
      committed, flushed := committed + flushed, [];
    }
  }

  // ---------------------------------------------------------------- whole runs

  /** A flushed tenant row was allowed by the scope bound at its flush. */
  predicate Sound(f: Flushed) {
    MayFlush(f.scope, f.item)
  }

  predicate AllSound(fs: seq<Flushed>) {
    forall i | 0 <= i < |fs| :: Sound(fs[i])
  }

  /** Everything flushed carries one scope or none. */
  predicate AllUnder(scope: TenantScope, fs: seq<Flushed>) {
    forall i | 0 <= i < |fs| :: fs[i].item.TenantItem? ==> fs[i].scope == Some(scope)
  }

  lemma {:induction false} BlockKeeps(s: Snapshot, scope: TenantScope, actions: seq<Action>)
    requires s.bound == Some(scope) && AllSound(s.flushed) && AllUnder(scope, s.flushed)
    ensures var end := BlockSpec(s, actions).0;
            && end.bound == Some(scope) && end.committed == s.committed
            && AllSound(end.flushed) && AllUnder(scope, end.flushed)
    decreases |actions|
  {
    if actions != [] {
      match actions[0]
      case Touch(item) => BlockKeeps(s.(pending := s.pending + [item]), scope, actions[1..]);
      case Flush(caught) => BlockKeeps(FlushSpec(s), scope, actions[1..]);
      case Raise =>
    }
  }

  /** One transaction appends to the committed rows only what its own scope allows, or appends nothing. */
  lemma TransactionCommitsOwnRows(s: Snapshot, scope: TenantScope, actions: seq<Action>)
    ensures var after := TransactionSpec(s, scope, actions);
            && s.committed <= after.committed
            && AllSound(after.committed[|s.committed|..]) && AllUnder(scope, after.committed[|s.committed|..])
            && after.bound == None && after.pending == [] && after.flushed == []
  {
    var start := s.(bound := Some(scope), flushed := []);
    BlockKeeps(start, scope, actions);
    var (end, raised) := BlockSpec(start, actions);
    if !raised && AllMayFlush(None, end.pending) {
      var last := Stamp(end.pending, None);
      forall i | 0 <= i < |last| ensures Sound(last[i]) && !last[i].item.TenantItem? {
        assert MayFlush(None, end.pending[i]);
      }
      var after := TransactionSpec(s, scope, actions);
      assert after.committed[|s.committed|..] == end.flushed + last;
    }
  }

  /**
   * Main result: a transaction commits exactly when its block ends normally with
   * no tenant row left to flush; a row left pending aborts it, since the scope is
   * already gone when the commit flushes.
   */
  lemma CommitsIffNothingPending(s: Snapshot, scope: TenantScope, actions: seq<Action>)
    ensures var (end, raised) := BlockSpec(s.(bound := Some(scope), flushed := []), actions);
            TransactionSpec(s, scope, actions).committed ==
            if raised || HasTenantItem(end.pending) then s.committed
            else s.committed + end.flushed + Stamp(end.pending, None)
  {
    var start := s.(bound := Some(scope), flushed := []);
    var (end, raised) := BlockSpec(start, actions);
    BlockKeepsCommitted(start, actions);
    assert AllMayFlush(None, end.pending) <==> !HasTenantItem(end.pending) by {
      if !HasTenantItem(end.pending) {
        forall i | 0 <= i < |end.pending| ensures MayFlush(None, end.pending[i]) {
        }
      }
    }
    assert s.committed + (end.flushed + Stamp(end.pending, None)) ==
           s.committed + end.flushed + Stamp(end.pending, None);
  }

  lemma {:induction false} BlockKeepsCommitted(s: Snapshot, actions: seq<Action>)
    ensures BlockSpec(s, actions).0.committed == s.committed
    decreases |actions|
  {
    if actions != [] {
      match actions[0]
      case Touch(item) => BlockKeepsCommitted(s.(pending := s.pending + [item]), actions[1..]);
      case Flush(caught) => BlockKeepsCommitted(FlushSpec(s), actions[1..]);
      case Raise =>
    }
  }

  /** One transaction, and what was touched on the session since the one before. */
  datatype Use = Use(touched: seq<Item>, scope: TenantScope, actions: seq<Action>)

  function Touched(s: Snapshot, items: seq<Item>): Snapshot {
    s.(pending := s.pending + items)
  }

  /** The session after a list of tenant transactions, with anything touched in between. */
  function RunSpec(uses: seq<Use>): Snapshot {
    if uses == [] then Snapshot(None, [], [], [])
    else
      var use := uses[|uses| - 1];
      TransactionSpec(Touched(RunSpec(uses[..|uses| - 1]), use.touched), use.scope, use.actions)
  }

  /** Main result: over every run, each committed tenant row was allowed by the scope bound when it was flushed. */
  lemma {:induction false} CommittedRowsWereAllowed(uses: seq<Use>)
    ensures AllSound(RunSpec(uses).committed)
  {
    if uses != [] {
      var before := RunSpec(uses[..|uses| - 1]);
      var use := uses[|uses| - 1];
      CommittedRowsWereAllowed(uses[..|uses| - 1]);
      TransactionCommitsOwnRows(Touched(before, use.touched), use.scope, use.actions);
      var after := RunSpec(uses);
      assert after.committed == before.committed + after.committed[|before.committed|..];
    }
  }

  /** On PostgreSQL the database would have let exactly these rows pass, under the settings of that scope. */
  lemma CommittedRowsPassPolicy(uses: seq<Use>, i: nat, projects: seq<Uuid>, units: seq<Uuid>)
    requires i < |RunSpec(uses).committed| && RunSpec(uses).committed[i].item.TenantItem?
    ensures RunSpec(uses).committed[i].scope.Some?
    ensures var f := RunSpec(uses).committed[i];
            Lists(projects, f.scope.value.projectIds) && Lists(units, f.scope.value.decisionUnitIds) ==>
              Policy(TenantIsolation.Written(f.scope.value, projects, units), f.item.row) == True
  {
    CommittedRowsWereAllowed(uses);
    var f := RunSpec(uses).committed[i];
    assert Sound(f);
    if Lists(projects, f.scope.value.projectIds) && Lists(units, f.scope.value.decisionUnitIds) {
      GuardMatchesPolicy(f.scope.value, projects, units, f.item.row);
    }
  }
}
