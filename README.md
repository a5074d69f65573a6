# invoicez calendar client — a Dafny model

This project models the decision logic of the invoicez calendar client
(`invoicez/calendar.py`). The client authenticates against a remote calendar
service, lets the operator pick one calendar, and lists that calendar's
events. Listing in both cases uses sync-token-driven pagination.

The model has five modules:

- `Options` (`options.dfy`): the optional value for every response entry
  and field that the source reads with `dict.get(key, None)`.
- `Decimal` (`decimal.dfy`): `str(n)` for the prompt's menu numbers, and
  `int(answer)` for the operator's reply. It proves that parsing undoes
  rendering.
- `Paging` (`paging.dfy`): the listing loop.
  - The remote list endpoint is a sequence of responses (`Page`). The i-th
    call receives `pages[i]`.
  - `FetchAll` runs the loop and logs the page token of every call.
  - The specification functions are `FirstSyncIndex`, `Collected`,
    `Listing` and the reference definition `Concat`. Lemmas relate them.
- `Credentials` (`credentials.dfy`): the credential decision made when the
  client is built (`Calendar._build_service`).
  - The credentials file is the `Option` field of the class
    `CredentialStore`.
  - Two outcomes are inputs: the refresh call (succeeds with a new access
    token, or raises `RefreshError`) and the interactive flow (issues a
    credential, or raises).
  - `BuildService` reports how often it refreshed, warned, ran the flow
    and wrote the file.
- `Calendars` (`calendars.dfy`): the selection menu and the
  selected-calendar file.
  - The file is the `Option<string>` field of the class `Calendar`.
  - That class holds the setter, the lazy getter, selection itself
    (`_select_calendar`) and the event listing (`_list_events`).
  - The operator's answer is an input. It must be one of the prompt's
    choices `"1"`..`"n"`, which is what `IntPrompt` enforces by asking
    again.

The source's `Calendar` object owns both local files. The model splits it in
two: `CredentialStore` holds the credentials file and `Calendar` holds the
selected-calendar file. The two procedures never touch each other's file.

Behaviour of the code worth knowing, which the model follows:

- The loop test is `next_sync_token is None` (invoicez/calendar.py:55).
  So any sync token that is not `None` ends the loop, an empty one included.
- The loop also never exits when no response carries a sync token. A
  response without `nextPageToken` makes the next call use no page token,
  which restarts the listing from the first page.
- An error while unpickling the credentials file propagates out of the
  construction (invoicez/calendar.py:25). That path is not modelled (see
  below).
- Nothing guards against an empty calendar list. With `choices=[]`,
  `IntPrompt` rejects every answer and asks again
  (invoicez/calendar.py:72-77). In the model, the requirement that the
  answer is one of the offered choices rules out an empty list.
- The code evaluates the selected-calendar getter once per event-list call
  (`calendarId=self._selected_calendar` inside the loop). `ListEvents`
  models it that way. It proves that only the first call can run a
  selection and that every call names the same calendar.

## Model

| member | source | states |
|---|---|---|
| `Decimal.Render` | invoicez/calendar.py:75 | the menu number `str(n)` is a non-empty string of decimal digits with no leading zero, and has two or more digits exactly when n >= 10 |
| `Decimal.ParseRender` | invoicez/calendar.py:72-78 | `Parse`, which models `IntPrompt`'s `int(answer)`, undoes `Render`: reading back a rendered menu number gives the number itself (round trip of `int(str(n))`) |
| `Decimal.RenderInjective` | invoicez/calendar.py:75 | distinct numbers render as distinct choices |
| `Paging.FirstSyncIndex` | invoicez/calendar.py:55-59 | when some response carries a sync token, the index it returns is a response carrying one, and no earlier response carries one |
| `Paging.FetchAll` | invoicez/calendar.py:52-59 | the loop makes exactly (1-based position of the first response with a sync token) calls; the first call carries no page token and each later one carries the previous response's `nextPageToken`; the result is the items of those responses in order; the returned sync token is that last response's |
| `Paging.TwoPageListing` | invoicez/calendar.py:52-59 | two responses (two items and page token "A", then one item and sync token "S1") give three items from two calls, the second made with "A" |
| `Paging.CollectedIsConcat` | invoicez/calendar.py:57 | the accumulated items equal the front-to-back concatenation of the responses' items: no reordering, no deduplication, nothing dropped |
| `Paging.CollectedPrefix` | invoicez/calendar.py:57 | the accumulator only grows at its end: what was gathered after m responses is a prefix of what is gathered after n >= m |
| `Paging.ItemPosition` | invoicez/calendar.py:55-59 | item j of response i (i up to the first response with a sync token) is in the listing right after the items of responses 0..i-1 |
| `Paging.SyncOnFirstPage` | invoicez/calendar.py:55-59 | if the first response has a sync token, the listing makes one call and returns exactly that response's items |
| `Paging.SyncOnLastPageOnly` | invoicez/calendar.py:55-59 | if only the last of N responses has a sync token, the listing makes N calls and returns all N responses' items in order |
| `Paging.LaterPagesIgnored` | invoicez/calendar.py:55-59 | responses after the first one with a sync token change neither the number of calls nor the result |
| `Paging.CallsIgnoreItems` | invoicez/calendar.py:55-59 | the number of calls depends only on the sync tokens, so a response with no or empty items still counts as a call |
| `Paging.MissingItemsAddNothing` | invoicez/calendar.py:57 | a response without an "items" key adds nothing to the accumulator |
| `Credentials.CredentialStore.BuildService` | invoicez/calendar.py:22-47 | valid stored credential: no refresh, no flow, no write; refreshable and the refresh succeeds: one refresh, no flow, the refreshed credential written; the refresh fails: one refresh, one warning, exactly one flow; no credential, or invalid and not refreshable: no refresh and exactly one flow; the flow's credential is written, and a raising flow leaves the file untouched; the file always holds the credential in use |
| `Credentials.StartTwice` | invoicez/calendar.py:22-47 | after a start that authorized while the flow issues valid credentials, the next start uses the stored credential and does nothing else; a start fails only when the stored credential was missing or invalid |
| `Calendars.ChoicesAreNumbers` | invoicez/calendar.py:75 | `str(k)` is among the offered choices exactly when 1 <= k <= n |
| `Calendars.AnswerNumber` | invoicez/calendar.py:72-79 | every accepted answer parses to a number in 1..n that is the answer's own position in the menu, so `index - 1` is within the list |
| `Calendars.Chosen` | invoicez/calendar.py:72-80 | the chosen calendar is the list entry whose 1-based menu number is the answer |
| `Calendars.ChoosingNumber` | invoicez/calendar.py:72-81 | for every k in 1..n, answering k picks `calendars[k-1]` in the order listed |
| `Calendars.Calendar.SetSelectedCalendar` | invoicez/calendar.py:99-104 | the file afterwards holds exactly the given id, whatever it held before |
| `Calendars.Calendar.SelectCalendar` | invoicez/calendar.py:51-81 | lists the calendars with the paging loop, picks the entry numbered by the answer and stores its id, overwriting any earlier selection |
| `Calendars.Calendar.SelectedCalendar` | invoicez/calendar.py:88-97 | runs the selection exactly when the file is missing; returns the stored id, which is the chosen calendar's id when a selection ran and the earlier value otherwise |
| `Calendars.Calendar.ListEvents` | invoicez/calendar.py:106-120 | the event listing follows the paging protocol (call count, page tokens, items in order), every call names the stored calendar, and a selection runs exactly once when the file was missing and never otherwise |
| `Calendars.ReadTwice` | invoicez/calendar.py:88-97 | a second read of the selected calendar triggers no selection and returns the same id as the first |

## Left out

- The Google API client (`build`) and the real `calendarList().list` and `events().list` calls are replaced by a fixed sequence of responses.
- A listing whose responses never carry a sync token loops forever in the source (`while next_sync_token is None`). The model requires that some response carries one (`HasSyncToken`), so it does not describe that endless loop.
- Transport errors during a listing are not modelled. They propagate and discard the partial result.
- OAuth is modelled only by its outcomes, which are inputs: `InstalledAppFlow`, `run_local_server`, the client-secrets file, the requested scopes and `creds.refresh(Request())`.
- Exceptions from the refresh call other than `RefreshError` are not modelled. They propagate out of the construction.
- The credential's validity is an abstract flag. The library derives it from the token and its expiry, and the model does not.
- Pickle serialisation and the filesystem (`open`, `is_file`, `exists`, `mkdir`) are not modelled. Both files are `Option` fields.
- A credentials file that cannot be unpickled raises in the source. This is not modelled.
- The warning is counted, but the logger and its message are not modelled.
- Console output is not modelled: the Rich rules, the markdown menu string, the "is selected" message and the printing of the event count and of each event's fields. `SelectCalendar` returns the chosen entry. `ListEvents` returns the events and the final sync token.
- `IntPrompt` re-asking after an answer outside the choices is not modelled. The answer is required to be one of the choices.
- The CLI commands `invoicez/cli/select_calendar.py` and `invoicez/cli/sync.py` only build the paths and call one method. They are not part of this model.
