/**
 * What a tenant transaction commits, stated on the actions of its block alone:
 * everything that was pending or touched, in order, or nothing.
 */
module CommittedRows {
  import opened Wrappers
  import opened TenantIsolation
  import opened TenantTransactions

  /** The items touched by the block, in order. */
  function Touches(actions: seq<Action>): seq<Item> {
    if actions == [] then []
    else (if actions[0].Touch? then [actions[0].item] else []) + Touches(actions[1..])
  }

  /** The items touched after the last flush; those of `start` too when nothing is flushed. */
  function Unflushed(start: seq<Item>, actions: seq<Action>): seq<Item>
    decreases |actions|
  {
    if actions == [] then start
    else
      match actions[0]
      case Touch(item) => Unflushed(start + [item], actions[1..])
      case Flush(_) => Unflushed([], actions[1..])
      case Raise => Unflushed(start, actions[1..])
  }

  function Items(fs: seq<Flushed>): (items: seq<Item>)
    ensures |items| == |fs| && forall i | 0 <= i < |fs| :: items[i] == fs[i].item
  {
    seq(|fs|, i requires 0 <= i < |fs| => fs[i].item)
  }

  /** A tenant row that the scope does not allow. */
  predicate IsForeign(scope: TenantScope, item: Item) {
    item.TenantItem? && !Allows(scope, item.row)
  }

  predicate NoneForeign(scope: TenantScope, items: seq<Item>) {
    forall i | 0 <= i < |items| :: !IsForeign(scope, items[i])
  }

  predicate NoneOfTenants(items: seq<Item>) {
    forall i | 0 <= i < |items| :: !items[i].TenantItem?
  }

  /** The block ends normally, touches nothing foreign, and flushes every tenant row itself. */
  predicate IsClean(pending: seq<Item>, scope: TenantScope, actions: seq<Action>) {
    && Raise !in actions
    && NoneForeign(scope, pending + Touches(actions))
    && NoneOfTenants(Unflushed(pending, actions))
  }

  // ---------------------------------------------------------------- a clean block

  lemma FlushesWhatIsClean(s: Snapshot, scope: TenantScope)
    requires s.bound == Some(scope) && NoneForeign(scope, s.pending)
    ensures AllMayFlush(s.bound, s.pending)
    ensures Items(FlushSpec(s).flushed) == Items(s.flushed) + s.pending && FlushSpec(s).pending == []
  {
  }

  lemma NoneForeignInBoth(scope: TenantScope, xs: seq<Item>, ys: seq<Item>)
    ensures NoneForeign(scope, xs + ys) <==> NoneForeign(scope, xs) && NoneForeign(scope, ys)
  {
    assert forall i | 0 <= i < |xs| :: (xs + ys)[i] == xs[i];
    assert forall i | 0 <= i < |ys| :: (xs + ys)[|xs| + i] == ys[i];
  }

  lemma OneFurther(before: seq<Item>, pending: seq<Item>, item: Item, rest: seq<Item>)
    ensures before + (pending + [item]) + rest == before + pending + ([item] + rest)
  {
  }

  lemma {:induction false} CleanBlock(s: Snapshot, scope: TenantScope, actions: seq<Action>)
    requires s.bound == Some(scope) && Raise !in actions
    requires NoneForeign(scope, s.pending) && NoneForeign(scope, Touches(actions))
    ensures var (end, raised) := BlockSpec(s, actions);
            && !raised && end.pending == Unflushed(s.pending, actions)
            && Items(end.flushed) + end.pending == Items(s.flushed) + s.pending + Touches(actions)
    decreases |actions|
  {
    if actions != [] {
      var rest := Touches(actions[1..]);
      match actions[0]
      case Touch(item) =>
        NoneForeignInBoth(scope, [item], rest);
        NoneForeignInBoth(scope, s.pending, [item]);
        OneFurther(Items(s.flushed), s.pending, item, rest);
        assert [item][0] == item;
        CleanBlock(s.(pending := s.pending + [item]), scope, actions[1..]);
      case Flush(_) =>
        FlushesWhatIsClean(s, scope);
        NoneForeignInBoth(scope, [], rest);
        CleanBlock(FlushSpec(s), scope, actions[1..]);
    }
  }

  // ---------------------------------------------------------------- any other block

  lemma {:induction false} RaisingBlock(s: Snapshot, actions: seq<Action>)
    requires Raise in actions
    ensures BlockSpec(s, actions).1
    decreases |actions|
  {
    match actions[0]
    case Touch(item) => RaisingBlock(s.(pending := s.pending + [item]), actions[1..]);
    case Flush(_) =>
      if AllMayFlush(s.bound, s.pending) || actions[0].caught {
        RaisingBlock(FlushSpec(s), actions[1..]);
      }
    case Raise =>
  }

  /** A foreign row never gets out of the way: every flush is refused as long as it is pending. */
  lemma {:induction false} ForeignStays(s: Snapshot, scope: TenantScope, actions: seq<Action>, item: Item)
    requires s.bound == Some(scope) && IsForeign(scope, item) && (item in s.pending || Touch(item) in actions)
    ensures var (end, raised) := BlockSpec(s, actions); raised || item in end.pending
    decreases |actions|
  {
    if actions != [] {
      match actions[0]
      case Touch(touched) => ForeignStays(s.(pending := s.pending + [touched]), scope, actions[1..], item);
      case Flush(caught) =>
        if item in s.pending {
          assert !AllMayFlush(s.bound, s.pending);
        }
        if AllMayFlush(s.bound, s.pending) || caught {
          ForeignStays(FlushSpec(s), scope, actions[1..], item);
        }
      case Raise =>
    }
  }

  lemma {:induction false} TouchedByActions(actions: seq<Action>, item: Item)
    ensures item in Touches(actions) <==> Touch(item) in actions
  {
    if actions != [] {
      TouchedByActions(actions[1..], item);
      assert actions == [actions[0]] + actions[1..];
    }
  }

  // ---------------------------------------------------------------- the transaction

  /** An exception that leaves the block commits nothing. */
  lemma RaiseCommitsNothing(s: Snapshot, scope: TenantScope, actions: seq<Action>)
    requires Raise in actions
    ensures TransactionSpec(s, scope, actions).committed == s.committed
  {
    RaisingBlock(s.(bound := Some(scope), flushed := []), actions);
    CommitsIffNothingPending(s, scope, actions);
  }

  /** A row that the scope does not allow, touched at any point or pending from before, lets nothing be committed. */
  lemma ForeignRowCommitsNothing(s: Snapshot, scope: TenantScope, actions: seq<Action>, item: Item)
    requires IsForeign(scope, item) && (item in s.pending || Touch(item) in actions)
    ensures TransactionSpec(s, scope, actions).committed == s.committed
  {
    var start := s.(bound := Some(scope), flushed := []);
    ForeignStays(start, scope, actions, item);
    var (end, raised) := BlockSpec(start, actions);
    if !raised {
      var i :| 0 <= i < |end.pending| && end.pending[i] == item;
      assert HasTenantItem(end.pending);
    }
    CommitsIffNothingPending(s, scope, actions);
  }

  /** The items of what was committed before, flushed in the block, and flushed at the commit. */
  lemma ItemsOfSum(before: seq<Flushed>, flushed: seq<Flushed>, last: seq<Item>)
    ensures Items(before + flushed + Stamp(last, None)) == Items(before) + (Items(flushed) + last)
  {
  }

  lemma CleanEnd(s: Snapshot, scope: TenantScope, actions: seq<Action>)
    requires IsClean(s.pending, scope, actions) && s.flushed == [] && s.bound == Some(scope)
    ensures var (end, raised) := BlockSpec(s, actions);
            !raised && !HasTenantItem(end.pending) && Items(end.flushed) + end.pending == s.pending + Touches(actions)
  {
    NoneForeignInBoth(scope, s.pending, Touches(actions));
    CleanBlock(s, scope, actions);
    assert Items(s.flushed) == [] && [] + s.pending == s.pending;
  }

  lemma CleanCommits(s: Snapshot, scope: TenantScope, actions: seq<Action>)
    requires IsClean(s.pending, scope, actions)
    ensures Items(TransactionSpec(s, scope, actions).committed) == Items(s.committed) + (s.pending + Touches(actions))
  {
    var start := s.(bound := Some(scope), flushed := []);
    CleanEnd(start, scope, actions);
    CommitsIffNothingPending(s, scope, actions);
    var end := BlockSpec(start, actions).0;
    ItemsOfSum(s.committed, end.flushed, end.pending);
  }

  lemma DirtyCommitsNothing(s: Snapshot, scope: TenantScope, actions: seq<Action>)
    requires !IsClean(s.pending, scope, actions)
    ensures TransactionSpec(s, scope, actions).committed == s.committed
  {
    if Raise in actions {
      RaiseCommitsNothing(s, scope, actions);
    } else if !NoneForeign(scope, s.pending + Touches(actions)) {
      var items := s.pending + Touches(actions);
      var i :| 0 <= i < |items| && IsForeign(scope, items[i]);
      TouchedByActions(actions, items[i]);
      ForeignRowCommitsNothing(s, scope, actions, items[i]);
    } else {
      NoneForeignInBoth(scope, s.pending, Touches(actions));
      CleanBlock(s.(bound := Some(scope), flushed := []), scope, actions);
      CommitsIffNothingPending(s, scope, actions);
    }
  }

  /**
   * Main result: a transaction commits exactly what was pending and touched, in
   * order, when its block neither raises nor touches a row its scope does not
   * allow nor leaves a tenant row unflushed; and otherwise nothing.
   */
  lemma CommitsAllOrNothing(s: Snapshot, scope: TenantScope, actions: seq<Action>)
    ensures var after := TransactionSpec(s, scope, actions);
            if IsClean(s.pending, scope, actions)
            then Items(after.committed) == Items(s.committed) + (s.pending + Touches(actions))
            else after.committed == s.committed
  {
    if IsClean(s.pending, scope, actions) {
      CleanCommits(s, scope, actions);
    } else {
      DirtyCommitsNothing(s, scope, actions);
    }
  }
}
