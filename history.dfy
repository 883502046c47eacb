/** The drawing window's undo history (Creabroderie/debug.py:37-40,
    350-386, 409-419, 1101-1106): a list of canvas snapshots and a cursor
    on the one shown, at most 50 snapshots long. What a snapshot holds and
    how it is put back on the canvas are left to the type parameter `S`. */
module Undo {
  import opened Stitch

  /** `max_history`. */
  const MaxHistory := 50

  /** The list `save_state` leaves: the snapshots after the cursor are
      dropped, `s` is appended, and the oldest snapshot goes when the list
      outgrows `MaxHistory`. */
  function Saved<S>(h: seq<S>, c: int, s: S): seq<S>
    requires -1 <= c < |h|
  {
    var kept := if c < |h| - 1 then h[..c + 1] else h;
    var appended := kept + [s];
    if |appended| > MaxHistory then appended[1..] else appended
  }

  /** Saving keeps the snapshots up to the cursor, in order, then `s`;
      only a full history loses its oldest snapshot, and the length stays
      within `MaxHistory`. */
  lemma SavedShape<S>(h: seq<S>, c: int, s: S)
    requires -1 <= c < |h| <= MaxHistory
    ensures |Saved(h, c, s)| <= MaxHistory
    ensures c + 1 < MaxHistory ==> Saved(h, c, s) == h[..c + 1] + [s]
    ensures c + 1 == MaxHistory ==> Saved(h, c, s) == h[1..] + [s]
  {
    if c < |h| - 1 {
      assert c + 1 < MaxHistory;
    } else {
      assert h[..c + 1] == h;
    }
  }

  /** Undoing right after a save shows again the snapshot that was current
      before it, also when the save dropped the oldest snapshot. */
  lemma SaveThenUndo<S>(h: seq<S>, c: int, s: S)
    requires 0 <= c < |h| <= MaxHistory
    ensures |Saved(h, c, s)| - 1 > 0
    ensures Saved(h, c, s)[|Saved(h, c, s)| - 2] == h[c]
  {
    SavedShape(h, c, s);
    if c + 1 == MaxHistory {
      assert h[1..][c - 1] == h[c];
    } else {
      assert h[..c + 1][c] == h[c];
    }
  }

  /** The history of the drawing window. */
  class History<S> {
    var history: seq<S>
    var currentStep: int

    /** The cursor is on a snapshot, or at -1 exactly when there is none. */
    predicate Valid()
      reads this
    {
      && |history| <= MaxHistory
      && -1 <= currentStep < |history|
      && (currentStep == -1 <==> history == [])
    }

    constructor()
      ensures Valid()
      ensures history == [] && currentStep == -1
    {
      history := [];
      currentStep := -1;
    }

    /** `save_state`, with the snapshot of the canvas passed in. */
    method SaveState(s: S)
      requires Valid()
      modifies this
      ensures Valid()
      ensures history == Saved(old(history), old(currentStep), s)
      ensures currentStep == |history| - 1 && history[currentStep] == s
    {
      if currentStep < |history| - 1 {
        history := history[..currentStep + 1];
      }
      history := history + [s];
      currentStep := currentStep + 1;
      if |history| > MaxHistory {
        history := history[1..];
        currentStep := currentStep - 1;
      }
    }

    /** `undo`: the cursor steps back unless it is on the first snapshot;
        the snapshot to restore is returned. */
    method Undo() returns (restored: Option<S>)
      requires Valid()
      modifies this
      ensures Valid()
      ensures history == old(history)
      ensures old(currentStep) > 0 ==> currentStep == old(currentStep) - 1 && restored == Some(history[currentStep])
      ensures old(currentStep) <= 0 ==> currentStep == old(currentStep) && restored == None
    {
      restored := None;
      if currentStep > 0 {
        currentStep := currentStep - 1;
        restored := Some(history[currentStep]);
      }
    }

    /** `redo`: the cursor steps forward unless it is on the last snapshot;
        the snapshot to restore is returned. */
    method Redo() returns (restored: Option<S>)
      requires Valid()
      modifies this
      ensures Valid()
      ensures history == old(history)
      ensures old(currentStep) < |history| - 1 ==> currentStep == old(currentStep) + 1 && restored == Some(history[currentStep])
      ensures old(currentStep) >= |history| - 1 ==> currentStep == old(currentStep) && restored == None
    {
      restored := None;
      if currentStep < |history| - 1 {
        currentStep := currentStep + 1;
        restored := Some(history[currentStep]);
      }
    }

    /** `new_design`: when the user confirms, the history is emptied. */
    method NewDesign(confirmed: bool)
      requires Valid()
      modifies this
      ensures Valid()
      ensures confirmed ==> history == [] && currentStep == -1
      ensures !confirmed ==> history == old(history) && currentStep == old(currentStep)
    {
      if confirmed {
        history := [];
        currentStep := -1;
      }
    }
  }
}
