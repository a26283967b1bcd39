/**
 * The content script's global `STATE` and the handlers that update it in place:
 * add, remove, clear, drag-and-drop reorder, row click, next/previous, the page-load
 * reload with auto-add, and the player's `ended` handler. Every mutation is
 * written through to storage; navigation and notices are returned as effects.
 */
module Controller {
  import opened Text
  import opened Queue
  import opened Storage
  import opened Navigation
  import opened AutoAdd

  const AlreadyInQueue: string := "Already in Queue"
  const NowPlayingPrefix: string := "Now Playing: "
  const AddedPrefix: string := "Added to Queue: "

  class WatchQueue {
    var queue: seq<Entry>
    var currentIndex: int
    /** Whether the panel is expanded; forced closed whenever the queue is seen empty. */
    var isOpen: bool
    /** The extension's local storage, the only state that survives a navigation. */
    var storage: Store

    function State(): QueueState
      reads this
    {
      QueueState(queue, currentIndex)
    }

    ghost predicate Valid()
      reads this
    {
      State().Valid()
    }

    /** The initial `STATE` of a freshly loaded script, next to the storage it finds. */
    constructor (storage: Store)
      ensures State() == QueueState([], -1) && !isOpen && this.storage == storage
      ensures Valid()
    {
      queue, currentIndex, isOpen := [], -1, false;
      this.storage := storage;
    }

    /** `updateContainerVisibility`: an empty queue hides and collapses the panel. */
    method UpdateVisibility()
      modifies this`isOpen
      ensures isOpen == (old(isOpen) && queue != [])
    {
      if queue == [] {
        isOpen := false;
      }
    }

    /** `saveQueue`: writes the list and the index through to storage. */
    method Save()
      modifies this`storage, this`isOpen
      ensures storage == Saved(old(storage), State())
      ensures isOpen == (old(isOpen) && queue != [])
    {
      storage := Saved(storage, State());
      UpdateVisibility();
    }

    /** The toggle button: expands or collapses the panel. */
    method TogglePanel()
      modifies this`isOpen
      ensures isOpen == !old(isOpen)
    {
      isOpen := !isOpen;
    }

    /** The reading half of `loadQueue`: both keys with their defaults. */
    method Hydrate()
      modifies this`queue, this`currentIndex, this`isOpen
      ensures State() == Loaded(storage)
      ensures isOpen == (old(isOpen) && queue != [])
      ensures StoreValid(storage) ==> Valid()
    {
      var loaded := Loaded(storage);
      queue := loaded.entries;
      currentIndex := loaded.current;
      UpdateVisibility();
    }

    /** `addToQueue(video, {silent, setAsCurrent})`. */
    method AddToQueue(video: Entry, silent: bool, setAsCurrent: bool) returns (effects: seq<Effect>)
      modifies this
      ensures queue == WithEntry(old(queue), video)
      ensures currentIndex == if setAsCurrent then IndexOf(queue, video.id) else old(currentIndex)
      ensures storage == if IndexOf(old(queue), video.id) != -1 && !setAsCurrent then old(storage)
                         else Saved(old(storage), State())
      ensures isOpen == old(isOpen)
      ensures effects == if silent then []
                         else if IndexOf(old(queue), video.id) == -1 then [Notify(AddedPrefix + video.title)]
                         else if setAsCurrent then [Notify(NowPlayingPrefix + video.title)]
                         else [Notify(AlreadyInQueue)]
      ensures old(Valid()) ==> Valid()
    {
      AddNeverDuplicates(queue, video);
      var existingIndex := FindIndex(queue, video.id);
      effects := [];
      if existingIndex != -1 {
        if setAsCurrent {
          currentIndex := existingIndex;
          Save();
          if !silent {
            effects := [Notify(NowPlayingPrefix + video.title)];
          }
        } else if !silent {
          effects := [Notify(AlreadyInQueue)];
        }
      } else {
        queue := queue + [video];
        if setAsCurrent {
          currentIndex := |queue| - 1;
        }
        Save();
        UpdateVisibility();
        if !silent {
          effects := [Notify(AddedPrefix + video.title)];
        }
      }
    }

    /** `removeFromQueue(index)`, from a row's remove button. */
    method RemoveFromQueue(index: nat)
      requires index < |queue|
      modifies this
      ensures State() == RemoveAt(old(State()), index)
      ensures storage == Saved(old(storage), State())
      ensures isOpen == (old(isOpen) && queue != [])
      ensures old(currentIndex) >= -1 ==> -1 <= currentIndex < |queue|
      ensures old(Valid()) ==> Valid()
    {
      RemoveKeepsIndexInBounds(State(), index);
      queue := queue[..index] + queue[index + 1..];
      if currentIndex >= index && currentIndex > 0 {
        currentIndex := currentIndex - 1;
      }
      if currentIndex >= |queue| {
        currentIndex := |queue| - 1;
      }
      Save();
    }

    /** `clearQueue`, from the Clear button. */
    method ClearQueue()
      modifies this
      ensures State() == QueueState([], -1) && Valid()
      ensures storage == Saved(old(storage), State())
      ensures !isOpen
    {
      queue := [];
      currentIndex := -1;
      Save();
    }

    /** The drop handler: the row dragged from `fromIndex` is dropped on row `toIndex`. */
    method DropEntry(fromIndex: nat, toIndex: nat)
      requires fromIndex < |queue| && toIndex < |queue|
      modifies this
      ensures State() == MoveEntry(old(State()), fromIndex, toIndex)
      ensures storage == if fromIndex == toIndex then old(storage) else Saved(old(storage), State())
      ensures isOpen == old(isOpen)
      ensures old(Valid()) ==> Valid() && multiset(queue) == multiset(old(queue))
      ensures old(Valid()) && old(currentIndex) >= 0 ==> queue[currentIndex] == old(queue[currentIndex])
    {
      if old(Valid()) {
        MoveKeepsValid(State(), fromIndex, toIndex);
      }
      if fromIndex != toIndex {
        var movedItem := queue[fromIndex];
        queue := queue[..fromIndex] + queue[fromIndex + 1..];
        queue := queue[..toIndex] + [movedItem] + queue[toIndex..];
        if currentIndex == fromIndex {
          currentIndex := toIndex;
        } else if fromIndex < currentIndex && toIndex >= currentIndex {
          currentIndex := currentIndex - 1;
        } else if fromIndex > currentIndex && toIndex <= currentIndex {
          currentIndex := currentIndex + 1;
        }
        Save();
      }
    }

    /** A click on row `index`: make it current and go to its video. */
    method SelectEntry(index: nat) returns (effects: seq<Effect>)
      requires index < |queue|
      modifies this
      ensures queue == old(queue) && currentIndex == index && isOpen == old(isOpen)
      ensures storage == Saved(old(storage), State())
      ensures effects == [Navigate(queue[index].url)]
      ensures old(UniqueIds(queue)) ==> Valid()
    {
      currentIndex := index;
      Save();
      effects := [Navigate(queue[index].url)];
    }

    /** `playNext` */
    method PlayNext() returns (effects: seq<Effect>)
      requires currentIndex >= -1
      modifies this
      ensures queue == old(queue) && isOpen == old(isOpen)
      ensures var step := NextStep(|queue|, old(currentIndex));
        if step.Go? then
          currentIndex == step.index && storage == Saved(old(storage), State())
          && effects == [Navigate(queue[step.index].url)]
        else
          currentIndex == old(currentIndex) && storage == old(storage) && effects == [Notify(step.message)]
      ensures old(Valid()) ==> Valid()
    {
      if |queue| == 0 {
        return [Notify(QueueIsEmpty)];
      }
      var nextIndex := currentIndex + 1;
      if nextIndex < |queue| {
        currentIndex := nextIndex;
        Save();
        effects := [Navigate(queue[nextIndex].url)];
      } else {
        effects := [Notify(EndOfQueue)];
      }
    }

    /** `playPrevious` */
    method PlayPrevious() returns (effects: seq<Effect>)
      requires currentIndex <= |queue|
      modifies this
      ensures queue == old(queue) && isOpen == old(isOpen)
      ensures var step := PreviousStep(|queue|, old(currentIndex));
        if step.Go? then
          currentIndex == step.index && storage == Saved(old(storage), State())
          && effects == [Navigate(queue[step.index].url)]
        else
          currentIndex == old(currentIndex) && storage == old(storage) && effects == [Notify(step.message)]
      ensures old(Valid()) ==> Valid()
    {
      if |queue| == 0 {
        return [Notify(QueueIsEmpty)];
      }
      var prevIndex := currentIndex - 1;
      if prevIndex >= 0 {
        currentIndex := prevIndex;
        Save();
        effects := [Navigate(queue[prevIndex].url)];
      } else {
        effects := [Notify(BeginningOfQueue)];
      }
    }

    /** `checkAutoAdd`, with the page observed through `page`. */
    method CheckAutoAdd(page: Page)
      modifies this
      ensures var a := Decide(old(State()), page);
        State() == Apply(old(State()), a)
        && storage == (if a.Ignore? then old(storage) else Saved(old(storage), State()))
      ensures isOpen == old(isOpen)
      ensures old(Valid()) ==> Valid()
      ensures old(currentIndex) >= -1 ==> currentIndex >= -1
    {
      AutoAddKeepsInvariant(State(), page);
      if |queue| == 0 {
        return;
      }
      if !StartsWith(page.path, PostPrefix) {
        return;
      }
      var id := PostId(page.path);
      var existingIdx := FindIndex(queue, id);
      if existingIdx != -1 {
        if currentIndex != existingIdx {
          currentIndex := existingIdx;
          Save();
        }
        return;
      }
      var attempt := FirstTitledAttempt(page.probes);
      if attempt != -1 {
        var video := PageEntry(id, page.href, page.probes[attempt]);
        var silentEffects := AddToQueue(video, true, true);
      }
    }

    /** `loadQueue` on a page load: hydrate from storage, then run the auto-add detector. */
    method LoadQueue(page: Page)
      modifies this
      ensures var loaded := Loaded(old(storage));
        var a := Decide(loaded, page);
        State() == Apply(loaded, a)
        && storage == (if a.Ignore? then old(storage) else Saved(old(storage), State()))
        && isOpen == (old(isOpen) && loaded.entries != [])
      ensures StoreValid(old(storage)) ==> Valid()
      ensures Loaded(old(storage)).current >= -1 ==> currentIndex >= -1
    {
      Hydrate();
      CheckAutoAdd(page);
    }

    /** The player's `ended` handler: reload (running only the detector's first attempt before
        deciding), then either announce and advance to the next entry, or report completion. */
    method OnPlaybackEnded(page: Page) returns (effects: seq<Effect>)
      requires Loaded(storage).current >= -1
      modifies this
      ensures var loaded := Loaded(old(storage));
        var a := Decide(loaded, FirstAttemptOnly(page));
        var reloaded := Apply(loaded, a);
        var step := EndedStep(|reloaded.entries|, reloaded.current);
        queue == reloaded.entries
        && if step.Go? then
             currentIndex == step.index && storage == Saved(old(storage), State())
             && effects == [Notify(UpNextPrefix + queue[step.index].title), Navigate(queue[step.index].url)]
           else
             currentIndex == reloaded.current && effects == [Notify(step.message)]
             && storage == (if a.Ignore? then old(storage) else Saved(old(storage), State()))
      ensures isOpen == (old(isOpen) && Loaded(old(storage)).entries != [])
      ensures StoreValid(old(storage)) ==> Valid()
    {
      LoadQueue(FirstAttemptOnly(page));
      ghost var reloaded := State();
      var nextIndex := currentIndex + 1;
      if nextIndex < |queue| {
        var nextVideo := queue[nextIndex];
        effects := [Notify(UpNextPrefix + nextVideo.title)];
        currentIndex := nextIndex;
        Save();
        SaveOverwrites(old(storage), reloaded, State());
        effects := effects + [Navigate(nextVideo.url)];
      } else {
        effects := [Notify(QueueComplete)];
      }
    }
  }
}
