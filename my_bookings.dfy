/** The booking list of the "My Booking" screen (components/MyBookingScreen.tsx):
    the tab filter over booking statuses, the local "mark cancelled" update that
    follows a successful PATCH, and the screen state those steps change. */
module MyBookings {
  import opened Common

  /** A booking as the screen receives it from the server. */
  datatype Booking = Booking(id: int, propertyName: string, location: string, price: real,
                             startDate: string, endDate: string, status: string)

  const Booked := "booked"
  const Cancelled := "cancelled"

  /** Indices into the screen's tabs "Upcoming", "Completed", "Cancelled". */
  const UpcomingTab := 0
  const CompletedTab := 1
  const CancelledTab := 2

  /** Whether a booking is listed under `tab`: only booked ones under "Upcoming",
      only cancelled ones under "Cancelled", none under any other tab. */
  predicate ShownOnTab(b: Booking, tab: int) {
    (tab == UpcomingTab && b.status == Booked) || (tab == CancelledTab && b.status == Cancelled)
  }

  /** The bookings listed under `tab`. */
  function FilteredBookings(bookings: seq<Booking>, tab: int): (shown: seq<Booking>)
    ensures IsSubsequence(shown, bookings)
    ensures forall k :: 0 <= k < |shown| ==> ShownOnTab(shown[k], tab)
    ensures forall k :: 0 <= k < |bookings| && ShownOnTab(bookings[k], tab) ==> bookings[k] in shown
    ensures forall b :: multiset(shown)[b] == if ShownOnTab(b, tab) then multiset(bookings)[b] else 0
  {
    Filter(bookings, b => ShownOnTab(b, tab))
  }

  /** Reference definition: the bookings whose status is `status`, in order. */
  function WithStatus(bookings: seq<Booking>, status: string): seq<Booking>
  {
    if bookings == [] then []
    else if bookings[0].status == status then [bookings[0]] + WithStatus(bookings[1..], status)
    else WithStatus(bookings[1..], status)
  }

  /** "Upcoming" lists exactly the booked bookings and "Cancelled" exactly the cancelled ones. */
  lemma {:induction false} TabsListStatuses(bookings: seq<Booking>)
    ensures FilteredBookings(bookings, UpcomingTab) == WithStatus(bookings, Booked)
    ensures FilteredBookings(bookings, CancelledTab) == WithStatus(bookings, Cancelled)
  {
    if bookings != [] {
      TabsListStatuses(bookings[1..]);
    }
  }

  /** "Completed" lists nothing, whatever the bookings: no status is shown there. */
  lemma CompletedTabEmpty(bookings: seq<Booking>)
    ensures FilteredBookings(bookings, CompletedTab) == []
  {
  }

  /** One booking after `prev.map(...)`: `{ ...b, status: "cancelled" }` when the id matches. */
  function CancelIfMatch(b: Booking, bookingId: int): Booking {
    if b.id == bookingId then b.(status := Cancelled) else b
  }

  /** The local update after a successful cancellation request. */
  function MarkCancelled(bookings: seq<Booking>, bookingId: int): (updated: seq<Booking>)
    ensures |updated| == |bookings|
    ensures forall k :: 0 <= k < |bookings| ==> updated[k].id == bookings[k].id
    ensures forall k :: 0 <= k < |bookings| && bookings[k].id == bookingId ==>
              updated[k] == bookings[k].(status := Cancelled)
    ensures forall k :: 0 <= k < |bookings| && bookings[k].id != bookingId ==> updated[k] == bookings[k]
  {
    if bookings == [] then []
    else [CancelIfMatch(bookings[0], bookingId)] + MarkCancelled(bookings[1..], bookingId)
  }

  /** Cancelling the same booking twice leaves the list as cancelling it once. */
  lemma MarkCancelledIdempotent(bookings: seq<Booking>, bookingId: int)
    ensures MarkCancelled(MarkCancelled(bookings, bookingId), bookingId) == MarkCancelled(bookings, bookingId)
  {
  }

  /** Cancelling a booking that is not in the list changes nothing. */
  lemma MarkCancelledAbsent(bookings: seq<Booking>, bookingId: int)
    requires forall k :: 0 <= k < |bookings| ==> bookings[k].id != bookingId
    ensures MarkCancelled(bookings, bookingId) == bookings
  {
  }

  /** After the update no booking with that id is listed under "Upcoming", and each
      booking that had it is listed, now cancelled, under "Cancelled". */
  lemma CancelledBookingChangesTab(bookings: seq<Booking>, bookingId: int)
    ensures forall b :: b in FilteredBookings(MarkCancelled(bookings, bookingId), UpcomingTab) ==> b.id != bookingId
    ensures forall k :: 0 <= k < |bookings| && bookings[k].id == bookingId ==>
              bookings[k].(status := Cancelled) in FilteredBookings(MarkCancelled(bookings, bookingId), CancelledTab)
  {
  }

  /** How the request for the booking list ended: the parsed JSON body (`null` as
      None), or a rejection of `fetch` or of `res.json()`. */
  datatype ListFetch = Received(data: Option<seq<Booking>>) | ListFailed

  /** The state of the screen. */
  class MyBookingsScreen {
    var bookings: seq<Booking>
    var tab: int
    var loading: bool
    var userId: Option<int>

    /** `useState` initial values. */
    constructor ()
      ensures bookings == [] && tab == UpcomingTab && loading && userId == None
    {
      bookings := [];
      tab := UpcomingTab;
      loading := true;
      userId := None;
    }

    /** The bookings the list renders. */
    function Visible(): seq<Booking>
      reads this
    {
      FilteredBookings(bookings, tab)
    }

    /** The stored user id, once read: it is set only when one was stored. */
    method UserIdLoaded(stored: Option<int>)
      modifies this
      ensures userId == (if stored.Some? then stored else old(userId))
      ensures bookings == old(bookings) && tab == old(tab) && loading == old(loading)
    {
      if stored.Some? {
        userId := stored;
      }
    }

    /** A tab press. */
    method SelectTab(idx: int)
      modifies this
      ensures tab == idx
      ensures bookings == old(bookings) && loading == old(loading) && userId == old(userId)
    {
      tab := idx;
    }

    /** The effect that loads the list once the user id is known; `requested` is the
        user id the request is issued for, None when no request is made. */
    method LoadBookings(result: ListFetch) returns (requested: Option<int>)
      modifies this
      ensures requested == old(userId)
      ensures old(userId).None? ==>
                bookings == old(bookings) && loading == old(loading)
      ensures old(userId).Some? ==> !loading
      ensures old(userId).Some? && result.Received? && result.data.Some? ==> bookings == result.data.value
      ensures old(userId).Some? && result.Received? && result.data.None? ==> bookings == []
      ensures result.ListFailed? ==> bookings == old(bookings)
      ensures tab == old(tab) && userId == old(userId)
    {
      if userId.None? {
        return None;
      }
      requested := userId;
      loading := true;
      match result {
        case Received(data) =>
          bookings := if data.Some? then data.value else [];
          loading := false;
        case ListFailed =>
          loading := false;
      }
    }

    /** `cancelBooking`: the local list changes only when the PATCH answered ok. */
    method CancelBooking(bookingId: int, patch: HttpOutcome) returns (alert: Alert)
      modifies this
      ensures patch == Responded(true) ==> bookings == MarkCancelled(old(bookings), bookingId)
      ensures patch != Responded(true) ==> bookings == old(bookings)
      ensures alert == if patch == Responded(true) then Alert("Cancellation successful", "")
                       else Alert("Error", "Could not cancel booking.")
      ensures tab == old(tab) && loading == old(loading) && userId == old(userId)
      // on "Upcoming", the cancelled booking disappears from the rendered list
      ensures patch == Responded(true) && tab == UpcomingTab ==> forall b :: b in Visible() ==> b.id != bookingId
    {
      CancelledBookingChangesTab(bookings, bookingId);
      if patch == RequestFailed || !patch.ok {
        return Alert("Error", "Could not cancel booking.");
      }
      bookings := MarkCancelled(bookings, bookingId);
      alert := Alert("Cancellation successful", "");
    }
  }
}
