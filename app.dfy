/** The state of the Okifx component and the handlers that change it: the
    text box, the pool of available names, the history of drawn names, the
    name on display, the animation flag, the timers of draws in progress and
    the key-value store the lists are saved to. */
module App {
  import Text
  import Lists
  import Draw

  datatype Option<T> = None | Some(value: T)

  /** The two entries of the key-value store that the component uses, under
      the keys `available-names` and `drawn-names`. Each is absent until it
      is first written. */
  datatype Store = Store(available: Option<seq<string>>, drawn: Option<seq<string>>)

  /** The store after saveData(available, drawn): both entries written. */
  function Saved(available: seq<string>, drawn: seq<string>): Store {
    Store(Some(available), Some(drawn))
  }

  /** The lists loadData hydrates from `store`: an entry that is present
      replaces the corresponding list, an absent one keeps it. */
  function Loaded(store: Store, available: seq<string>, drawn: seq<string>): (seq<string>, seq<string>) {
    (if store.available.Some? then store.available.value else available,
     if store.drawn.Some? then store.drawn.value else drawn)
  }

  /** Whatever was loaded before, loading after a save gives back exactly
      the saved pair: the two entries are written together. */
  lemma SaveThenLoad(available: seq<string>, drawn: seq<string>, a0: seq<string>, d0: seq<string>)
    ensures Loaded(Saved(available, drawn), a0, d0) == (available, drawn)
  {
  }

  class Okifx {
    var nameInput: string
    var availableNames: seq<string>
    var drawnNames: seq<string>
    var currentDraw: Option<string>
    var isAnimating: bool
    /** The timers started by drawName and not yet cleared, oldest first. */
    var intervals: seq<Draw.Interval>
    /** The component's entries in the key-value store (window.storage). */
    var storage: Store

    /** Every pending timer captured a non-empty pool and has not yet passed
        its committing tick; the animation flag is only up while some timer
        is pending. */
    ghost predicate Valid()
      reads this
    {
      && (forall i :: 0 <= i < |intervals| ==>
            intervals[i].pool != [] && intervals[i].counter <= Draw.LastShowingTick)
      && (isAnimating ==> intervals != [])
    }

    /** The component's initial state, over an existing store. */
    constructor (store: Store)
      ensures Valid()
      ensures nameInput == "" && availableNames == [] && drawnNames == []
      ensures currentDraw == None && !isAnimating && intervals == [] && storage == store
    {
      nameInput := "";
      availableNames := [];
      drawnNames := [];
      currentDraw := None;
      isAnimating := false;
      intervals := [];
      storage := store;
    }

    /** The effect of loadData: each list is replaced by its stored value
        when its key is present. */
    method LoadData()
      requires Valid()
      modifies this
      ensures Valid()
      ensures (availableNames, drawnNames) == Loaded(storage, old(availableNames), old(drawnNames))
      ensures storage == old(storage) && nameInput == old(nameInput)
      ensures currentDraw == old(currentDraw) && isAnimating == old(isAnimating)
      ensures intervals == old(intervals)
    {
      if storage.available.Some? {
        availableNames := storage.available.value;
      }
      if storage.drawn.Some? {
        drawnNames := storage.drawn.value;
      }
    }

    /** The effect of saveData: both keys are written, available first. */
    method SaveData(available: seq<string>, drawn: seq<string>)
      modifies this`storage
      ensures storage == Saved(available, drawn)
    {
      storage := storage.(available := Some(available));
      storage := storage.(drawn := Some(drawn));
    }

    /** The text box's onChange handler. */
    method SetNameInput(text: string)
      requires Valid()
      modifies this`nameInput
      ensures Valid() && nameInput == text
    {
      nameInput := text;
    }

    /** addName: a text box that is blank after trimming changes nothing;
        otherwise its trimmed text is appended to the pool, without any
        duplicate check, the pair is saved and the text box is cleared. */
    method AddName()
      requires Valid()
      modifies this
      ensures Valid()
      ensures Text.Trim(old(nameInput)) == "" ==> unchanged(this)
      ensures Text.Trim(old(nameInput)) != "" ==>
                && availableNames == old(availableNames) + [Text.Trim(old(nameInput))]
                && drawnNames == old(drawnNames)
                && nameInput == ""
                && storage == Saved(availableNames, drawnNames)
                && currentDraw == old(currentDraw) && isAnimating == old(isAnimating)
                && intervals == old(intervals)
    {
      var trimmed := Text.Trim(nameInput);
      if trimmed != "" {
        var newAvailable := availableNames + [trimmed];
        availableNames := newAvailable;
        SaveData(newAvailable, drawnNames);
        nameInput := "";
      }
    }

    /** removeName(index): the pool loses the entry at `index` and keeps the
        others in order; an index outside the pool matches nothing and the
        pool stays as it was. The pair is saved either way. */
    method RemoveName(index: int)
      requires Valid()
      modifies this
      ensures Valid()
      ensures availableNames ==
                if 0 <= index < |old(availableNames)|
                then old(availableNames)[..index] + old(availableNames)[index + 1..]
                else old(availableNames)
      ensures drawnNames == old(drawnNames)
      ensures storage == Saved(availableNames, drawnNames)
      ensures nameInput == old(nameInput) && currentDraw == old(currentDraw)
      ensures isAnimating == old(isAnimating) && intervals == old(intervals)
    {
      var newAvailable := Lists.FilterOutIndex(availableNames, index);
      availableNames := newAvailable;
      SaveData(newAvailable, drawnNames);
    }

    /** drawName: nothing at all happens on an empty pool; otherwise the
        animation flag goes up and a timer starts over the pool and history
        as they are now, with its counter at zero. */
    method DrawName()
      requires Valid()
      modifies this
      ensures Valid()
      ensures old(availableNames) == [] ==> unchanged(this)
      ensures old(availableNames) != [] ==>
                && isAnimating
                && intervals == old(intervals) + [Draw.Interval(availableNames, drawnNames, 0)]
                && availableNames == old(availableNames) && drawnNames == old(drawnNames)
                && nameInput == old(nameInput) && currentDraw == old(currentDraw)
                && storage == old(storage)
    {
      if |availableNames| == 0 {
        return;
      }
      isAnimating := true;
      intervals := intervals + [Draw.Interval(availableNames, drawnNames, 0)];
    }

    /** One callback of the `j`-th pending timer, with `shownIndex` and
        `finalIndex` standing for the two random draws over its captured
        pool. A tick before the sixteenth shows a captured entry and bumps the
        counter. The sixteenth clears the timer, shows the pick, replaces both
        lists by the ones computed from the captured pair (whatever happened
        to the live lists meanwhile), saves them and lowers the flag. */
    method Tick(j: nat, shownIndex: nat, finalIndex: nat)
      requires Valid() && j < |intervals|
      requires shownIndex < |intervals[j].pool| && finalIndex < |intervals[j].pool|
      modifies this
      ensures Valid()
      ensures nameInput == old(nameInput)
      ensures var o := Draw.Tick(old(intervals[j]), shownIndex, finalIndex);
        if o.Shown? then
          && currentDraw == Some(o.name)
          && intervals == old(intervals)[j := o.next]
          && availableNames == old(availableNames) && drawnNames == old(drawnNames)
          && isAnimating == old(isAnimating) && storage == old(storage)
        else
          && currentDraw == Some(o.commit.pick)
          && intervals == old(intervals[..j] + intervals[j + 1..])
          && availableNames == o.commit.pool && drawnNames == o.commit.history
          && storage == Saved(availableNames, drawnNames)
          && !isAnimating
    {
      var iv := intervals[j];
      ghost var o := Draw.Tick(iv, shownIndex, finalIndex);
      var counter := iv.counter + 1;
      currentDraw := Some(iv.pool[shownIndex]);
      if counter > Draw.LastShowingTick {
        assert o.Committed? && o.commit == Draw.CommitAt(iv.pool, iv.history, finalIndex);
        intervals := Lists.FilterOutIndex(intervals, j);
        assert forall i :: 0 <= i < |intervals| ==> intervals[i] in old(intervals);
        var drawnName := iv.pool[finalIndex];
        currentDraw := Some(drawnName);
        var newAvailable := Lists.FilterOutIndex(iv.pool, finalIndex);
        var newDrawn := iv.history + [drawnName];
        availableNames := newAvailable;
        drawnNames := newDrawn;
        SaveData(newAvailable, newDrawn);
        isAnimating := false;
      } else {
        assert o.Shown? && o.next == iv.(counter := counter);
        intervals := intervals[j := iv.(counter := counter)];
      }
    }

    /** resetAll: the history goes back to the end of the pool in draw order,
        the history empties, the display clears, and the pair is saved. */
    method ResetAll()
      requires Valid()
      modifies this
      ensures Valid()
      ensures availableNames == old(availableNames) + old(drawnNames)
      ensures drawnNames == [] && currentDraw == None
      ensures storage == Saved(availableNames, [])
      ensures nameInput == old(nameInput) && isAnimating == old(isAnimating)
      ensures intervals == old(intervals)
    {
      var allNames := availableNames + drawnNames;
      availableNames := allNames;
      drawnNames := [];
      currentDraw := None;
      SaveData(allNames, []);
    }

    /** Two resets in a row leave the same state as one: after the first
        the history is empty, so the second appends nothing. */
    method ResetTwice()
      requires Valid()
      modifies this
      ensures Valid()
      ensures availableNames == old(availableNames) + old(drawnNames) && drawnNames == []
      ensures |availableNames| == old(|availableNames| + |drawnNames|)
      ensures storage == Saved(availableNames, [])
      ensures currentDraw == None && nameInput == old(nameInput)
      ensures isAnimating == old(isAnimating) && intervals == old(intervals)
    {
      ResetAll();
      ghost var once := availableNames;
      ResetAll();
      assert availableNames == once;
    }

    /** Lets the newest pending timer, still at counter zero, run all its
        ticks: fifteen ticks that show, then the commit of `finalIndex` over
        the pair that timer captured. */
    method FinishDraw(indices: seq<nat>, finalIndex: nat)
      requires Valid() && intervals != []
      requires intervals[|intervals| - 1].counter == 0
      requires finalIndex < |intervals[|intervals| - 1].pool|
      requires |indices| >= Draw.LastShowingTick + 1
      requires Draw.IndicesBelow(indices, |intervals[|intervals| - 1].pool|)
      modifies this
      ensures Valid()
      ensures var iv := old(intervals[|intervals| - 1]);
        var c := Draw.CommitAt(iv.pool, iv.history, finalIndex);
        && availableNames == c.pool && drawnNames == c.history
        && currentDraw == Some(c.pick) && !isAnimating
        && storage == Saved(c.pool, c.history)
        && intervals == old(intervals[..|intervals| - 1])
        && nameInput == old(nameInput)
    {
      var j := |intervals| - 1;
      ghost var iv := intervals[j];
      var i := 0;
      while i < Draw.LastShowingTick
        invariant 0 <= i <= Draw.LastShowingTick
        invariant Valid()
        invariant intervals == old(intervals[..|intervals| - 1]) + [iv.(counter := i)]
        invariant nameInput == old(nameInput) && storage == old(storage)
      {
        Tick(j, indices[i], finalIndex);
        i := i + 1;
      }
      Tick(j, indices[i], finalIndex);
    }

    /** A draw that nothing interrupts: drawName followed by every tick of
        its timer. On a non-empty pool the entry at `finalIndex` moves from
        the pool to the end of the history and the pair is saved. */
    method RunDraw(indices: seq<nat>, finalIndex: nat)
      requires Valid()
      requires availableNames != [] ==> finalIndex < |availableNames|
      requires |indices| >= Draw.LastShowingTick + 1
      requires availableNames != [] ==> Draw.IndicesBelow(indices, |availableNames|)
      modifies this
      ensures Valid()
      ensures old(availableNames) == [] ==> unchanged(this)
      ensures old(availableNames) != [] ==>
                var c := Draw.CommitAt(old(availableNames), old(drawnNames), finalIndex);
                && availableNames == c.pool && drawnNames == c.history
                && currentDraw == Some(c.pick) && !isAnimating
                && storage == Saved(c.pool, c.history)
                && intervals == old(intervals) && nameInput == old(nameInput)
      ensures multiset(availableNames + drawnNames) == old(multiset(availableNames + drawnNames))
    {
      var started := availableNames != [];
      if started {
        Draw.CommitConserves(availableNames, drawnNames, finalIndex);
      }
      DrawName();
      if started {
        FinishDraw(indices, finalIndex);
      }
    }

    /** A name added while a draw is running does not survive its commit:
        the commit writes the lists computed from the pair captured at draw
        start, so the outcome is the same as if the name had never been
        added. */
    method AddDuringDraw(text: string, indices: seq<nat>, finalIndex: nat)
      requires Valid() && availableNames != [] && finalIndex < |availableNames|
      requires |indices| >= Draw.LastShowingTick + 1
      requires Draw.IndicesBelow(indices, |availableNames|)
      modifies this
      ensures Valid()
      ensures var c := Draw.CommitAt(old(availableNames), old(drawnNames), finalIndex);
        && availableNames == c.pool && drawnNames == c.history
        && storage == Saved(c.pool, c.history)
        && currentDraw == Some(c.pick) && !isAnimating
        && intervals == old(intervals)
      ensures Text.Trim(text) != "" ==> nameInput == ""
      ensures Text.Trim(text) == "" ==> nameInput == text
    {
      DrawName();
      SetNameInput(text);
      AddName();
      FinishDraw(indices, finalIndex);
    }
  }
}
