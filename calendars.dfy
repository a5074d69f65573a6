/** Calendar selection, the lazily filled selected-calendar file and the
    event listing of the calendar client. */
module Calendars {
  import opened Options
  import opened Paging
  import Decimal

  /** One entry of the account's calendar list (its "id" and "summary"). */
  datatype CalendarEntry = CalendarEntry(id: string, summary: string)

  /** One event. The four fields only stand for the values printed for it
      (the API's `start` and `end` are objects). Each field is `None` when
      the event lacks it, and nothing in the model reads them. */
  datatype Event = Event(summary: Option<string>, start: Option<string>, end: Option<string>, description: Option<string>)

  /** The page token of one event-list call and the calendar id it names. */
  datatype EventsRequest = EventsRequest(calendarId: string, pageToken: Option<string>)

  /** The prompt's accepted answers for a menu of `n` calendars: "1" to "n". */
  function Choices(n: nat): seq<string> {
    seq(n, i requires 0 <= i < n => Decimal.Render(i + 1))
  }

  /** A number is offered exactly when it lies in 1..n. */
  lemma ChoicesAreNumbers(n: nat, k: nat)
    ensures Decimal.Render(k) in Choices(n) <==> 1 <= k <= n
  {
    if Decimal.Render(k) in Choices(n) {
      var i :| 0 <= i < n && Choices(n)[i] == Decimal.Render(k);
      Decimal.RenderInjective(i + 1, k);
    }
    if 1 <= k <= n {
      assert Choices(n)[k - 1] == Decimal.Render(k);
    }
  }

  /** An accepted answer reads back as its own 1-based menu number. */
  lemma AnswerNumber(n: nat, answer: string)
    requires answer in Choices(n)
    ensures Decimal.IsDigits(answer)
    ensures 1 <= Decimal.Parse(answer) <= n
    ensures Choices(n)[Decimal.Parse(answer) - 1] == answer
  {
    var i :| 0 <= i < n && Choices(n)[i] == answer;
    Decimal.ParseRender(i + 1);
  }

  /** The calendar whose menu number the operator answered. */
  function Chosen(calendars: seq<CalendarEntry>, answer: string): (c: CalendarEntry)
    requires answer in Choices(|calendars|)
    ensures exists i :: 0 <= i < |calendars| && answer == Decimal.Render(i + 1) && c == calendars[i]
  {
    AnswerNumber(|calendars|, answer);
    calendars[Decimal.Parse(answer) - 1]
  }

  /** Answering `k` picks the k-th calendar as listed, for every k in 1..n. */
  lemma ChoosingNumber(calendars: seq<CalendarEntry>, k: nat)
    requires 1 <= k <= |calendars|
    ensures Decimal.Render(k) in Choices(|calendars|)
    ensures Chosen(calendars, Decimal.Render(k)) == calendars[k - 1]
  {
    ChoicesAreNumbers(|calendars|, k);
    var c := Chosen(calendars, Decimal.Render(k));
    var i :| 0 <= i < |calendars| && Decimal.Render(k) == Decimal.Render(i + 1) && c == calendars[i];
    Decimal.RenderInjective(k, i + 1);
  }

  /** A selection can complete: the calendar listing ends and the operator's
      answer is one of the offered numbers (so the list is not empty). */
  predicate CanSelect(calendarPages: seq<Page<CalendarEntry>>, answer: string) {
    HasSyncToken(calendarPages) && answer in Choices(|Listing(calendarPages)|)
  }

  /** The calendar client; `selectedCalendar` is the selected-calendar file,
      `None` while it does not exist. */
  class Calendar {
    var selectedCalendar: Option<string>

    constructor (selectedCalendar: Option<string>)
      ensures this.selectedCalendar == selectedCalendar
    {
      this.selectedCalendar := selectedCalendar;
    }

    /** The setter: writes the file, replacing any earlier value. */
    method SetSelectedCalendar(value: string)
      modifies this
      ensures selectedCalendar == Some(value)
    {
      selectedCalendar := Some(value);
    }

    /** Lists the calendars, takes the operator's answer to the numbered menu
        and stores the id of the calendar with that number. */
    method SelectCalendar(calendarPages: seq<Page<CalendarEntry>>, answer: string)
      returns (chosen: CalendarEntry, calls: seq<Option<string>>)
      requires CanSelect(calendarPages, answer)
      modifies this
      ensures |calls| == FirstSyncIndex(calendarPages) + 1
      ensures calls[0] == None
      ensures forall i :: 0 < i < |calls| ==> calls[i] == calendarPages[i - 1].nextPageToken
      ensures chosen == Chosen(Listing(calendarPages), answer)
      ensures selectedCalendar == Some(chosen.id)
    {
      var calendars, syncToken;
      calendars, calls, syncToken := FetchAll(calendarPages);
      AnswerNumber(|calendars|, answer);
      var calendarIndex := Decimal.Parse(answer) - 1;
      chosen := calendars[calendarIndex];
      SetSelectedCalendar(chosen.id);
    }

    /** The getter: runs the selection only when the file is missing, then
        returns the stored id. */
    method SelectedCalendar(calendarPages: seq<Page<CalendarEntry>>, answer: string)
      returns (id: string, selectionRun: bool)
      requires selectedCalendar.None? ==> CanSelect(calendarPages, answer)
      modifies this
      ensures selectionRun <==> old(selectedCalendar).None?
      ensures old(selectedCalendar).Some? ==> id == old(selectedCalendar).value
      ensures old(selectedCalendar).None? ==> id == Chosen(Listing(calendarPages), answer).id
      ensures selectedCalendar == Some(id)
    {
      selectionRun := selectedCalendar.None?;
      if selectionRun {
        var chosen, calls := SelectCalendar(calendarPages, answer);
      }
      id := selectedCalendar.value;
    }

    /**
     * Lists the events of the selected calendar. As in the listing loop, the
     * first call has no page token and every later call passes the previous
     * response's `nextPageToken`; the calendar id is re-read through the
     * getter on every call, so a missing selection is made by the first call
     * only.
     */
    method ListEvents(calendarPages: seq<Page<CalendarEntry>>, answer: string, eventPages: seq<Page<Event>>)
      returns (events: seq<Event>, calls: seq<EventsRequest>, selections: nat, syncToken: string)
      requires selectedCalendar.None? ==> CanSelect(calendarPages, answer)
      requires HasSyncToken(eventPages)
      modifies this
      ensures old(selectedCalendar).Some? ==> selectedCalendar == old(selectedCalendar) && selections == 0
      ensures old(selectedCalendar).None? ==>
        selectedCalendar == Some(Chosen(Listing(calendarPages), answer).id) && selections == 1
      ensures |calls| == FirstSyncIndex(eventPages) + 1
      ensures events == Collected(eventPages, |calls|)
      ensures forall i :: 0 <= i < |calls| ==> Some(calls[i].calendarId) == selectedCalendar
      ensures calls[0].pageToken == None
      ensures forall i :: 0 < i < |calls| ==> calls[i].pageToken == eventPages[i - 1].nextPageToken
      ensures eventPages[|calls| - 1].nextSyncToken == Some(syncToken)
    {
      ghost var k := FirstSyncIndex(eventPages);
      events, calls, selections := [], [], 0;
      var nextSyncToken: Option<string> := None;
      var pageToken: Option<string> := None;
      var i := 0;
      while nextSyncToken.None?
        invariant i == |calls| <= k + 1
        invariant nextSyncToken.None? <==> i <= k
        invariant 0 < i ==> nextSyncToken == eventPages[i - 1].nextSyncToken
        invariant pageToken == if i == 0 then None else eventPages[i - 1].nextPageToken
        invariant events == Collected(eventPages, i)
        invariant forall j :: 0 <= j < i ==> calls[j].pageToken == if j == 0 then None else eventPages[j - 1].nextPageToken
        invariant i == 0 ==> selectedCalendar == old(selectedCalendar) && selections == 0
        invariant selectedCalendar.None? ==> CanSelect(calendarPages, answer)
        invariant 0 < i && old(selectedCalendar).Some? ==> selectedCalendar == old(selectedCalendar) && selections == 0
        invariant 0 < i && old(selectedCalendar).None? ==>
          selectedCalendar == Some(Chosen(Listing(calendarPages), answer).id) && selections == 1
        invariant forall j :: 0 <= j < i ==> Some(calls[j].calendarId) == selectedCalendar
        decreases k + 1 - i
      {
        var calendarId, selectionRun := SelectedCalendar(calendarPages, answer);
        if selectionRun {
          selections := selections + 1;
        }
        calls := calls + [EventsRequest(calendarId, pageToken)];
        var result := eventPages[i];
        events := events + ItemsOf(result);
        pageToken := result.nextPageToken;
        nextSyncToken := result.nextSyncToken;
        i := i + 1;
      }
      syncToken := nextSyncToken.value;
    }
  }

  /** Two reads of the selected calendar: the first runs the selection only
      when the file is missing; the second finds it and runs nothing. */
  method ReadTwice(initial: Option<string>, calendarPages: seq<Page<CalendarEntry>>, answer: string)
    returns (first: string, second: string, firstRun: bool, secondRun: bool)
    requires initial.None? ==> CanSelect(calendarPages, answer)
    ensures firstRun <==> initial.None?
    ensures initial.Some? ==> first == initial.value
    ensures initial.None? ==> first == Chosen(Listing(calendarPages), answer).id
    ensures !secondRun && second == first
  {
    var calendar := new Calendar(initial);
    first, firstRun := calendar.SelectedCalendar(calendarPages, answer);
    second, secondRun := calendar.SelectedCalendar(calendarPages, answer);
  }
}
