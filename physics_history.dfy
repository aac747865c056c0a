// The bounded physics history the physics module keeps: after every
// physics-solver step, the current ticker TickId and solver frame are
// appended, and once the history is full its oldest entry is dropped first.

module PhysicsHistory {

  datatype HistoryItem = HistoryItem(tickId: int, physicsFrame: int)

  /** The history after one entry is recorded with room for `maxHistory` entries. */
  function Recorded(items: seq<HistoryItem>, maxHistory: int, item: HistoryItem): (r: seq<HistoryItem>)
    requires |items| >= maxHistory ==> |items| > 0
    ensures |r| > 0 && r[|r| - 1] == item
    ensures |items| < maxHistory <==> |r| == |items| + 1
    ensures maxHistory >= 1 && |items| <= maxHistory ==> |r| <= maxHistory
  {
    var kept := if |items| >= maxHistory then items[1..] else items;
    kept + [item]
  }

  /** The entries kept by one recording step are the newest old ones, in their old order. */
  lemma RecordedKeepsOrder(items: seq<HistoryItem>, maxHistory: int, item: HistoryItem)
    requires |items| >= maxHistory ==> |items| > 0
    ensures var r := Recorded(items, maxHistory, item);
      |r| - 1 <= |items| && r[..|r| - 1] == items[|items| - (|r| - 1)..]
  {
    var r := Recorded(items, maxHistory, item);
    if |items| >= maxHistory {
      assert r[..|r| - 1] == items[1..];
    } else {
      assert r[..|r| - 1] == items;
    }
  }

  /** The newest `k` entries of `s` (all of them when there are fewer). */
  function Newest(s: seq<HistoryItem>, k: nat): (r: seq<HistoryItem>)
    ensures |r| == if |s| < k then |s| else k
  {
    if |s| < k then s else s[|s| - k..]
  }

  /** Recording a sequence of entries one after another, starting from a history that fits. */
  function RecordAll(items: seq<HistoryItem>, maxHistory: int, steps: seq<HistoryItem>): (r: seq<HistoryItem>)
    requires 1 <= maxHistory && |items| <= maxHistory
    ensures |r| <= maxHistory
    decreases |steps|
  {
    if steps == [] then items
    else Recorded(RecordAll(items, maxHistory, steps[..|steps| - 1]), maxHistory, steps[|steps| - 1])
  }

  /** One recording step keeps the window of the newest entries. */
  lemma RecordedKeepsWindow(s: seq<HistoryItem>, maxHistory: nat, item: HistoryItem)
    requires maxHistory >= 1
    ensures Recorded(Newest(s, maxHistory), maxHistory, item) == Newest(s + [item], maxHistory)
  {
    if |s| >= maxHistory {
      assert Newest(s, maxHistory)[1..] == s[|s| - maxHistory + 1..];
      assert s[|s| - maxHistory + 1..] + [item] == (s + [item])[|s| + 1 - maxHistory..];
    }
  }

  lemma NewestOfFitting(items: seq<HistoryItem>, k: nat)
    requires |items| <= k
    ensures Newest(items, k) == items
  {
    assert items[|items| - |items|..] == items;
  }

  /** Recording one more entry onto a window gives the window of the longer sequence. */
  lemma WindowStep(items: seq<HistoryItem>, maxHistory: nat, init: seq<HistoryItem>, last: HistoryItem)
    requires 1 <= maxHistory && |items| <= maxHistory
    requires RecordAll(items, maxHistory, init) == Newest(items + init, maxHistory)
    ensures RecordAll(items, maxHistory, init + [last]) == Newest(items + (init + [last]), maxHistory)
  {
    assert (init + [last])[..|init + [last]| - 1] == init;
    RecordedKeepsWindow(items + init, maxHistory, last);
    assert items + (init + [last]) == (items + init) + [last];
  }

  /**
   * However many entries are recorded, the history is exactly the newest
   * `maxHistory` of everything recorded, oldest first.
   */
  lemma {:induction false} RecordAllIsWindow(items: seq<HistoryItem>, maxHistory: nat, steps: seq<HistoryItem>)
    requires 1 <= maxHistory && |items| <= maxHistory
    ensures RecordAll(items, maxHistory, steps) == Newest(items + steps, maxHistory)
    decreases |steps|
  {
    if steps == [] {
      assert items + steps == items;
      NewestOfFitting(items, maxHistory);
    } else {
      var init, last := steps[..|steps| - 1], steps[|steps| - 1];
      RecordAllIsWindow(items, maxHistory, init);
      WindowStep(items, maxHistory, init, last);
      assert init + [last] == steps;
    }
  }

  /** The physics module's history component and the values the callback reads. */
  class PhysicsModule {
    var maxFrameHistory: int
    var historyItems: seq<HistoryItem>

    constructor()
      ensures maxFrameHistory == 300 && historyItems == []
    {
      maxFrameHistory := 300;
      historyItems := [];
    }

    /**
     * The post-advance callback. Nothing happens unless the world is valid
     * and has a physics scene; then the current TickId and solver frame are
     * recorded.
     */
    method OnPostAdvance(worldValid: bool, hasPhysicsScene: bool, tickId: int, currentFrame: int)
      requires |historyItems| >= maxFrameHistory ==> |historyItems| > 0
      modifies this
      ensures maxFrameHistory == old(maxFrameHistory)
      ensures !(worldValid && hasPhysicsScene) ==> historyItems == old(historyItems)
      ensures worldValid && hasPhysicsScene ==>
                historyItems == Recorded(old(historyItems), maxFrameHistory, HistoryItem(tickId, currentFrame))
    {
      if !worldValid {
        return;
      }
      if !hasPhysicsScene {
        return;
      }
      if |historyItems| >= maxFrameHistory {
        historyItems := historyItems[1..];
      }
      historyItems := historyItems + [HistoryItem(tickId, currentFrame)];
    }
  }
}
