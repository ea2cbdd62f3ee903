/** The two reminder pop-ups (the party playlist and the performance sign-up).
    Each keeps a show counter in the browser's local storage: closing the
    pop-up counts one showing, taking its action jumps the counter to the
    maximum, and the pop-up is shown only while the counter is below it. */
module Reminders {
  import opened Types

  const PLAYLIST_MAX_SHOWS: nat := 2
  const PERFORMANCE_MAX_SHOWS: nat := 3

  /** `parseInt(localStorage.getItem(key) || "0", 10)`: an absent entry
      counts as 0. */
  function Count(stored: Option<nat>): (n: nat)
    ensures stored.None? ==> n == 0
    ensures stored.Some? ==> n == stored.value
  {
    if stored.Some? then stored.value else 0
  }

  /** `shouldShow…Reminder`: never during server rendering (no window);
      otherwise exactly while the count is below the maximum. */
  function ShouldShow(hasWindow: bool, stored: Option<nat>, maxShows: nat): (r: bool)
    ensures !hasWindow ==> !r
    ensures hasWindow && stored.None? ==> (r <==> maxShows > 0)
    ensures hasWindow && stored.Some? ==> (r <==> stored.value < maxShows)
  {
    hasWindow && Count(stored) < maxShows
  }

  /** The stored value after `n` closes in a row. */
  function Closed(stored: Option<nat>, n: nat): (r: Option<nat>)
    ensures n > 0 ==> r.Some?
    ensures n == 0 ==> r == stored
  {
    if n == 0 then stored else Some(Count(Closed(stored, n - 1)) + 1)
  }

  /** Each close adds exactly one to the count. */
  lemma {:induction false} ClosedCount(stored: Option<nat>, n: nat)
    ensures Count(Closed(stored, n)) == Count(stored) + n
  {
    if n > 0 {
      ClosedCount(stored, n - 1);
    }
  }

  /** From an empty store the pop-up is shown before each of the first
      `maxShows` closes and never after them. */
  lemma ClosesStopReminder(maxShows: nat, n: nat)
    ensures ShouldShow(true, Closed(None, n), maxShows) <==> n < maxShows
  {
    ClosedCount(None, n);
  }

  /** Once the counter has reached the maximum, no number of further closes
      brings the pop-up back. */
  lemma StaysStopped(stored: Option<nat>, maxShows: nat, n: nat)
    requires Count(stored) >= maxShows
    ensures !ShouldShow(true, Closed(stored, n), maxShows)
  {
    ClosedCount(stored, n);
  }

  /** One pop-up's entry in local storage. */
  class Reminder {
    const maxShows: nat
    var stored: Option<nat>

    constructor (maxShows: nat, stored: Option<nat>)
      ensures this.maxShows == maxShows && this.stored == stored
    {
      this.maxShows := maxShows;
      this.stored := stored;
    }

    /** `incrementCount`, run when the pop-up is closed. */
    method IncrementCount()
      modifies this
      ensures stored == Closed(old(stored), 1)
      ensures Count(stored) == Count(old(stored)) + 1
    {
      stored := Some(Count(stored) + 1);
    }

    /** `setMaxCount`, run when the pop-up's action is taken: it is not
        shown again. */
    method SetMaxCount()
      modifies this
      ensures stored == Some(maxShows)
      ensures forall w :: !ShouldShow(w, stored, maxShows)
    {
      stored := Some(maxShows);
    }
  }
}
