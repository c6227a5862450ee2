/** One draw as drawName runs it: a timer callback that fires repeatedly over
    the pool and history captured when the draw started, shows a random entry
    of that pool on each tick, and on the sixteenth tick commits one index,
    moving that entry from the pool to the history. */
module Draw {
  import Lists

  /** Number of ticks after which the callback commits (`counter > 15`). */
  const LastShowingTick: nat := 15

  /** A pending timer: the lists its closure captured at draw start, and the
      closure's mutable tick counter. */
  datatype Interval = Interval(pool: seq<string>, history: seq<string>, counter: nat)

  /** The lists a commit computes, and the name it drew. */
  datatype Commit = Commit(pick: string, pool: seq<string>, history: seq<string>)

  /** What one callback does: show an entry and keep going, or commit. */
  datatype TickOutcome = Shown(name: string, next: Interval) | Committed(commit: Commit)

  /** The commit with final index `k`: the entry at `k` leaves the pool by
      position and is appended to the history. */
  function CommitAt(pool: seq<string>, history: seq<string>, k: nat): (c: Commit)
    requires k < |pool|
    ensures c.pick == pool[k]
    ensures c.pool == pool[..k] + pool[k + 1..]
    ensures c.history == history + [pool[k]]
  {
    Commit(pool[k], Lists.FilterOutIndex(pool, k), history + [pool[k]])
  }

  /** A commit moves one entry: it keeps the total count and the multiset of
      all names, the pick comes from the pool, and the history only grows at
      its end. */
  lemma {:induction false} CommitConserves(pool: seq<string>, history: seq<string>, k: nat)
    requires k < |pool|
    ensures var c := CommitAt(pool, history, k);
      && |c.pool| + |c.history| == |pool| + |history|
      && multiset(c.pool + c.history) == multiset(pool + history)
      && c.pick in pool
      && history <= c.history
  {
    var c := CommitAt(pool, history, k);
    Lists.FilterOutIndexMultiset(pool, k);
    calc {
      multiset(c.pool + c.history);
      multiset(c.pool) + multiset(history) + multiset{pool[k]};
      multiset(pool) + multiset(history);
    }
  }

  /** One callback of the timer with the random indices `shownIndex` (the
      value shown on this tick) and `finalIndex` (the one committed if this
      tick is the last). The counter is bumped first; the tick commits once
      it exceeds LastShowingTick. */
  function Tick(iv: Interval, shownIndex: nat, finalIndex: nat): (o: TickOutcome)
    requires shownIndex < |iv.pool| && finalIndex < |iv.pool|
    ensures o.Committed? <==> iv.counter >= LastShowingTick
    ensures o.Shown? ==>
              && o.name == iv.pool[shownIndex]
              && o.next.pool == iv.pool && o.next.history == iv.history
              && o.next.counter == iv.counter + 1
    ensures o.Committed? ==>
              && o.commit == CommitAt(iv.pool, iv.history, finalIndex)
              && o.commit.pick in iv.pool
              && |o.commit.pool| + |o.commit.history| == |iv.pool| + |iv.history|
  {
    var counter := iv.counter + 1;
    if counter > LastShowingTick then
      CommitConserves(iv.pool, iv.history, finalIndex);
      Committed(CommitAt(iv.pool, iv.history, finalIndex))
    else
      Shown(iv.pool[shownIndex], iv.(counter := counter))
  }

  /** The names shown tick by tick, and the commit that ends the draw. */
  datatype Trace = Trace(shown: seq<string>, commit: Commit)

  predicate IndicesBelow(indices: seq<nat>, n: nat) {
    forall i :: 0 <= i < |indices| ==> indices[i] < n
  }

  /** Runs the timer from its current counter until it commits, consuming one
      random index per tick from `indices`; the last shown name is the pick. */
  function Drive(iv: Interval, indices: seq<nat>, finalIndex: nat): (t: Trace)
    requires iv.counter <= LastShowingTick && finalIndex < |iv.pool|
    requires |indices| >= LastShowingTick + 1 - iv.counter
    requires IndicesBelow(indices, |iv.pool|)
    ensures |t.shown| == LastShowingTick + 1 - iv.counter
    ensures forall i :: 0 <= i < |t.shown| ==> t.shown[i] in iv.pool
    ensures t.shown[|t.shown| - 1] == iv.pool[finalIndex] == t.commit.pick
    ensures t.commit == CommitAt(iv.pool, iv.history, finalIndex)
    decreases LastShowingTick - iv.counter
  {
    match Tick(iv, indices[0], finalIndex)
    case Committed(c) => Trace([c.pick], c)
    case Shown(name, next) =>
      var rest := Drive(next, indices[1..], finalIndex);
      Trace([name] + rest.shown, rest.commit)
  }

  /** A draw started over `pool` and `history` commits on exactly its
      sixteenth tick, shows only entries of the captured pool, and ends with
      the entry at the final index moved from the pool to the history. */
  lemma {:induction false} DrawFromStart(pool: seq<string>, history: seq<string>, indices: seq<nat>, finalIndex: nat)
    requires finalIndex < |pool|
    requires |indices| >= LastShowingTick + 1 && IndicesBelow(indices, |pool|)
    ensures var t := Drive(Interval(pool, history, 0), indices, finalIndex);
      && |t.shown| == 16
      && (forall i :: 0 <= i < 16 ==> t.shown[i] in pool)
      && t.commit.pool == pool[..finalIndex] + pool[finalIndex + 1..]
      && t.commit.history == history + [pool[finalIndex]]
      && multiset(t.commit.pool + t.commit.history) == multiset(pool + history)
  {
    CommitConserves(pool, history, finalIndex);
  }
}
