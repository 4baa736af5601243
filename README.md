# A verified model of a small Hebrew CRM

The repository is a small contact manager. It has a Flask backend
(`backend/app.py`) over a Supabase database, a single-page frontend
(`frontend/app.js`), and a chat sidebar (`frontend/chat.js`). The sidebar
answers questions in natural language: a language model turns each question
into a query plan, and the backend runs that plan against the database.

This project models the core of both halves in Dafny and proves properties of
the model.

- **The frontend state** of `app.js` is the class `AppState.App`.
  - The module-level variables (the view, the active contact, the roster, the
    status filter, the search) are its fields, as are the parts of the page the
    handlers change.
  - Every handler that assigns them is a method that states the whole new
    state.
  - `renderContacts` is proved against a specification function,
    `ListPipeline.Render`. It filters by status, then by a case-insensitive
    search on name or company, then sorts stably by next-action date with
    dates first and undated contacts last.
  - When neither filter is set, the sort reorders the roster itself, because
    `filtered` is `allContacts`. The model keeps this.
- **The pure helpers of `app.js`** become functions with lemmas: HTML
  escaping and its exact inverse, truncation, and the badge and icon tables.
- **The chat sidebar** is the class `ChatSession.Chat`. It holds the
  in-memory history, the bubbles and the ordered record of what one send
  does.
  - `makeContactNamesClickable` is a loop proved against a specification
    function, `Linkify.Linkified`.
  - `escapeRegExp` is proved to build a literal pattern that matches exactly
    the escaped name.
- **The backend handlers** are functions from the parsed JSON body to how the
  handler ends. A handler either answers with an error status, raises (and is
  answered 500), or accepts.
  - This covers `create_contact`, `update_contact` and `create_interaction`.
  - The `get_dashboard` histogram is a loop with its invariant.
  - The `get_contacts` enrichment is a loop over an array that updates each
    element in place.
  - For `chat`, the model builds the database query from the query plan.
  - Python truthiness and `dict.get` are modelled exactly. A falsy body, a
    falsy field, and a body that is not an object are distinct cases.

Everything that comes from outside is a parameter of the model:

- the server's answer to a request, and whether it succeeded;
- the user's confirmation of a deletion;
- the query plan produced by the language model;
- the rows a database query returns.

## Model

| member | source | states |
|---|---|---|
| Strings.ContainsAt | frontend/app.js:178-179 | `includes` holds exactly when the piece starts at some position of the string |
| Strings.Contains | frontend/app.js:178 | the empty piece is always contained, and a contained piece is no longer than the string |
| Strings.ContainsInContext | frontend/chat.js:78 | a piece contained in a string is contained in any string that extends it on both sides |
| Strings.Lower | frontend/app.js:176-179 | lower-casing keeps the length and maps every character on its own |
| Strings.LowerIdempotent | frontend/app.js:176 | lower-casing the query and the fields twice is the same as once |
| Strings.TrimStartSpec | frontend/chat.js:29 | what is removed at the start is white space, and the rest does not start with white space |
| Strings.TrimEndSpec | frontend/chat.js:29 | what is removed at the end is white space, and the rest does not end with white space |
| Strings.TrimBounds | frontend/app.js:391 | the trimmed string is a slice of the input with only white space outside it |
| Strings.TrimSpec | frontend/chat.js:29 | the trimmed string is a slice with white space only around it; its ends are not white space; it is empty exactly when the input is all white space |
| Strings.TrimEmpty | frontend/chat.js:30 | the empty check rejects exactly the inputs made only of white space |
| Strings.TrimIdempotent | frontend/app.js:391 | trimming twice is trimming once |
| Strings.ReplaceAllAbsent | frontend/chat.js:81 | a global replace of a pattern that does not occur changes nothing |
| Strings.ReplaceAllInserts | frontend/chat.js:81 | a global replace of a pattern that occurs leaves the replacement in the result |
| Strings.ReplaceAllUndo | frontend/chat.js:81 | replacing back undoes a replace whose replacement starts with a character found in neither the string nor the pattern |
| Strings.ReplaceAllPrefix | frontend/chat.js:81 | up to any length, the result of a global replace either agrees with the input or already holds the start of a replacement |
| Strings.ReplaceAllLeavesNone | frontend/chat.js:79-81 | the replace is global: when the replacement does not contain the pattern and neither starts nor ends with one of its characters, no occurrence of the pattern is left |
| Strings.ReplaceAllThrough | frontend/chat.js:81 | when the replacement starts with a character found in neither the string nor the pattern, replacing every replacement by a third string equals replacing the pattern by it directly |
| Escape.EscapeHtml | frontend/app.js:220-225 | escaping gives the empty string exactly for empty text, never contains `<` or `>`, and is no shorter than the text |
| Escape.UnescapeChar | frontend/app.js:220-225 | decoding one escaped character gives it back |
| Escape.UnescapeEscaped | frontend/app.js:220-225 | decoding an escaped prefix gives back the text and leaves what follows to be decoded on its own |
| Escape.EscapeRoundTrip | frontend/chat.js:87-92 | decoding the escaped text gives back the text: escaping loses nothing |
| Escape.EscapeConcat | frontend/app.js:220-225 | escaping distributes over concatenation |
| Escape.EscapeKeepsContains | frontend/chat.js:78-79 | a name contained in the reply, escaped, is contained in the escaped reply |
| Escape.Truncate | frontend/app.js:215-218 | empty for empty input; no `<` or `>`; decodes to the first `len` characters followed by `...` when the text is longer, and to the whole text otherwise |
| Contacts.StatusBadgeClass | frontend/app.js:82-89 | each of the three statuses gets its class, and every other value gets the empty class |
| Contacts.BadgeClassInjective | frontend/app.js:82-89 | distinct statuses get distinct badge classes |
| Contacts.TypeIcon | frontend/app.js:91-99 | each of the four interaction types gets its icon, and every other value gets the default icon |
| Contacts.TypeIconInjective | frontend/app.js:91-99 | distinct interaction types get distinct icons |
| ListPipeline.FilterCount | frontend/app.js:171 | `filter` keeps each element that passes as often as it occurs, and drops every element that fails |
| ListPipeline.FilterSubseq | frontend/app.js:177 | `filter` preserves order: the result is a subsequence of the input |
| ListPipeline.FilterConcat | frontend/app.js:171 | filtering distributes over concatenation |
| ListPipeline.FilterFilter | frontend/app.js:170-181 | filtering twice equals filtering once by the conjunction |
| ListPipeline.FiltersCompose | frontend/app.js:167-181 | the status filter followed by the search filter keeps exactly the contacts that pass both tests |
| ListPipeline.ComparatorConsistent | frontend/app.js:184-191 | the date comparator is a total preorder, antisymmetric in sign, whose ties are equal dates (equal, or both missing) |
| ListPipeline.CompareDates | frontend/app.js:184-191 | ties are exactly equal dates (or both missing); a dated contact sorts before an undated one; two dates sort by their order |
| ListPipeline.Insert | frontend/app.js:184 | insertion adds exactly the one contact |
| ListPipeline.InsertSorted | frontend/app.js:184-191 | inserting into a sorted sequence keeps it sorted |
| ListPipeline.SortByDate | frontend/app.js:184-191 | the sort is a permutation, and the result is sorted with dated contacts first and undated ones last |
| ListPipeline.SortStable | frontend/app.js:184-191 | the sort is stable: contacts that share a date keep their relative order |
| ListPipeline.SortedUnique | frontend/app.js:184-191 | a sorted sequence is determined by the order within each date, so any stable sort gives this result |
| ListPipeline.SameDateOfFilter | frontend/app.js:170-191 | taking one date's contacts commutes with filtering |
| ListPipeline.Render | frontend/app.js:166-191 | the rows are sorted by date and are no more than the roster |
| ListPipeline.RenderKeepsExactly | frontend/app.js:166-191 | the rows are a permutation of the contacts that pass both filters |
| ListPipeline.KeptCount | frontend/app.js:167-181 | after both filters each contact remains as often as in the roster if it passes both tests, and is gone otherwise |
| ListPipeline.RenderOrdered | frontend/app.js:184-191 | the rows are in date order |
| ListPipeline.RenderStable | frontend/app.js:167-191 | within each date, the rows keep roster order, and the kept contacts are a subsequence of the roster |
| ListPipeline.RenderAfterInPlaceSort | frontend/app.js:167-191 | rendering the roster after the in-place sort has already reordered it gives the same rows |
| AppState.App.constructor | frontend/app.js:5-9 | the initial state: the dashboard, no contact, empty roster, filter and search |
| AppState.App.ShowDashboard | frontend/app.js:116-124 | moves to the dashboard with no contact, requests the counters and the table, and clears the table behind a loading indicator |
| AppState.App.ShowContactDetail | frontend/app.js:126-133 | moves to the detail view of the given contact, hides the add button, and requests that contact's details |
| AppState.App.LoadDashboard | frontend/app.js:137-139 | one dashboard request is sent |
| AppState.App.DashboardArrived | frontend/app.js:140-142 | each counter shows its count, or 0 when the server leaves it out |
| AppState.App.DashboardFailed | frontend/app.js:143-145 | a failed dashboard request shows one error notice |
| AppState.App.LoadContacts | frontend/app.js:150-156 | shows loading, hides the empty state, clears the table, and sends one contacts request |
| AppState.App.ContactsArrived | frontend/app.js:157-162 | the new roster is rendered; the empty state shows exactly when there are no rows; loading ends |
| AppState.App.ContactsFailed | frontend/app.js:159-162 | on failure the old roster stays, one error notice is shown, and loading ends |
| AppState.App.LoadContactDetail | frontend/app.js:229-231 | one detail request is sent for the id |
| AppState.App.DetailArrived | frontend/app.js:231-264 | the details of the id that arrived fill the panel and the add-interaction form, whichever contact is active now |
| AppState.App.DetailFailed | frontend/app.js:265-267 | a failed detail request shows one error notice |
| AppState.App.RenderContacts | frontend/app.js:166-213 | the rows are `Render` of the roster; the empty state shows exactly when there are no rows; with no filter and no search the roster itself becomes sorted, and otherwise it is unchanged |
| AppState.App.UpdateContactStatus | frontend/app.js:307-314 | sends exactly one status update, then shows a success notice or an error notice |
| AppState.App.DeleteContact | frontend/app.js:316-325 | declined: nothing is sent and nothing changes; confirmed: one delete is sent, and on success one notice and the dashboard reload follow, with the table loading and empty; on failure one error notice and nothing else |
| AppState.App.DeleteInteraction | frontend/app.js:327-336 | declined: nothing is sent; confirmed: one delete is sent, and on success the active contact's details are reloaded |
| AppState.App.Start | frontend/app.js:350-352 | the page starts on the dashboard, sends one load of each kind, and shows the table loading and empty |
| AppState.App.ClickFab | frontend/app.js:355-361 | the visible add button opens the add-contact form on the dashboard and the add-interaction form in the detail view; since the detail view hides the button, in a valid state it always opens the add-contact form |
| AppState.App.ClickBack | frontend/app.js:364-367 | shows the add button again and returns to the dashboard, with both loads sent and the table loading and empty |
| AppState.App.ChangeStatus | frontend/app.js:370-374 | a status update is sent only while a contact is active; then it is the update for that contact, followed by the success or the error notice |
| AppState.App.ClickDeleteContact | frontend/app.js:377-379 | only an active contact is deleted; the requests, notices, view and table in each branch are those of `DeleteContact` |
| AppState.App.ClickAddInteraction | frontend/app.js:382-384 | in the detail view, opens the add-interaction form |
| AppState.App.CloseModal | frontend/app.js:407-418 | closes that modal and no other |
| AppState.App.SearchSettled | frontend/app.js:390-393 | the trimmed input becomes the search, and the table is rendered with it |
| AppState.App.ClickFilterPill | frontend/app.js:398-403 | the pill's status becomes the filter, and the table is rendered with it |
| AppState.App.SubmitContactForm | frontend/app.js:421-436 | one POST; on success a notice, the form closed, and the dashboard and table reloaded, with the table loading and empty; on failure an error notice with the message and nothing else |
| AppState.App.SubmitInteractionForm | frontend/app.js:439-455 | the interaction is posted for the contact held by the form; on success the form's contact is reset to the active one (the empty string when there is none, as an input stores `null`), the form closes, and the details of the active contact reload |
| AppState.InitialRun | frontend/app.js:350-352 | after loading: the dashboard, no contact, one dashboard request, then one contacts request |
| AppState.DetailAndBackRun | frontend/app.js:364-367 | opening a contact and going back returns to the dashboard with the add button shown |
| AppState.DeleteLeavesFabHiddenRun | frontend/app.js:316-325 | after deleting the open contact, the dashboard shows but the add button stays hidden |
| AppState.StaleDetailRun | frontend/app.js:229-264 | a late response for an earlier contact fills the panel while a later contact is active, and the next interaction added from the detail view is posted for the earlier contact |
| AppState.RerenderRun | frontend/app.js:166-191 | with no filter and no search the roster is left sorted, and rendering it again gives the same rows |
| Linkify.EscapeRegExp | frontend/chat.js:94-96 | never shorter than the input, and empty exactly for empty input |
| Linkify.EscapeRegExpLiteral | frontend/chat.js:94-96 | the escaped string is a literal pattern that matches exactly the original string |
| Linkify.EscapeRegExpPlain | frontend/chat.js:94-96 | a string without regular-expression syntax characters is left as it is |
| Linkify.Anchor | frontend/chat.js:80 | the link is an `<a` element that contains the escaped name |
| Linkify.LinkContact | frontend/chat.js:78-82 | one loop turn: a contact whose non-empty name occurs in the reply has every occurrence of its escaped name replaced by its link |
| Linkify.MakeContactNamesClickable | frontend/chat.js:70-85 | the loop returns `Linkified`: the escaped reply when the roster is missing or empty, and otherwise the turns for each contact in roster order |
| Linkify.NothingToLink | frontend/chat.js:77-83 | contacts with no name, or whose name does not occur in the reply, leave the html unchanged |
| Linkify.LinkifiedPlain | frontend/chat.js:72-74 | with no roster, or nothing to link, the reply is only escaped |
| Linkify.StepLinks | frontend/chat.js:78-81 | a processed contact's link appears in the result once its escaped name occurs in the html so far |
| Linkify.StepLinksEvery | frontend/chat.js:78-81 | from html without markup, every occurrence of a processed contact's escaped name ends up inside one of its links: masking the links leaves no escaped name |
| Linkify.SingleContactLinked | frontend/chat.js:76-84 | with one contact whose name occurs in the reply, the result holds its link |
| Linkify.SingleContactLinksEvery | frontend/chat.js:76-84 | with one contact whose name occurs in the reply, masking its links in the result leaves no occurrence of its escaped name |
| Linkify.SingleContactUndo | frontend/chat.js:76-84 | with one contact, replacing the links back by the escaped name gives the escaped reply, which decodes to the reply |
| Linkify.ShorterNameInsideEarlierLink | frontend/chat.js:77-82 | with contacts "Dana" then "a", the link for "a" is placed inside the tag of the "Dana" link |
| ChatSession.Respond | frontend/chat.js:52-66 | the bubble that ends the send; the reply joins the history exactly when it is shown as markup |
| ChatSession.ResultBubble | frontend/chat.js:52-66 | markup is shown exactly for a reply without an error, with class `assistant`; every other outcome ends in a text bubble with class `assistant error` |
| ChatSession.TurnKeepsWellFormed | frontend/chat.js:34-62 | a send keeps the history well formed: every assistant entry answers the user entry just before it |
| ChatSession.TurnUserTurns | frontend/chat.js:34 | one send adds exactly one user entry |
| ChatSession.Chat.constructor | frontend/chat.js:8 | an empty history and an empty transcript |
| ChatSession.Chat.SendMessage | frontend/chat.js:28-68 | blank input changes nothing; otherwise one request with the trimmed text, the input cleared, the effects in their order, and the reply remembered only when there is no error; the history stays well formed with one user entry per request |
| ChatSession.Chat.Send | frontend/chat.js:32-67 | a send past the empty check, with its full effects |
| ChatSession.Chat.Submit | frontend/chat.js:32-46 | the user's bubble and entry, the input cleared, the typing bubble shown, and the text posted on its own |
| ChatSession.Chat.Settle | frontend/chat.js:53-66 | the typing bubble is removed before the result bubble is shown |
| ChatSession.FailThenSucceedRun | frontend/chat.js:28-68 | after a failed send and a successful one, the history holds both user entries and only the second reply |
| ChatSession.BlankInputRun | frontend/chat.js:29-30 | white space alone sends nothing, shows nothing and leaves the input as it is |
| ChatSession.LinkAfterRenderRun | frontend/chat.js:77 | after an unfiltered render, a reply is linked against the roster in date order, since that render sorted it in place |
| Json.Get | backend/app.py:102-105 | `dict.get` returns the value when the key is present and the default otherwise |
| BackendContacts.CreateContact | backend/app.py:96-106 | 400 for a falsy body or a falsy name; raises for a body that is not an object; otherwise a record with exactly the five contact fields, each from the body or its default |
| BackendContacts.CreateContactRoundTrip | backend/app.py:96-106 | a stored record sent back is stored unchanged |
| BackendContacts.CreateContactIgnoresOtherKeys | backend/app.py:100-106 | keys other than the contact fields do not affect the result |
| BackendContacts.Whitelisted | backend/app.py:121-122 | the update holds exactly the body's contact fields, with the body's values |
| BackendContacts.UpdateRequest | backend/app.py:117-122 | 400 for a falsy body; raises for a body that is not an object; otherwise the whitelisted body |
| BackendContacts.UpdateResponse | backend/app.py:128-131 | 404 exactly when no row was updated, and otherwise the first row |
| BackendContacts.WhitelistedIdempotent | backend/app.py:121-122 | whitelisting twice is whitelisting once |
| BackendContacts.UpdateChangesOnlyContactFields | backend/app.py:121-125 | an update changes the contact fields the body names, to the body's values, and nothing else |
| BackendContacts.Enriched | backend/app.py:49-61 | all five enrichment fields are present, copied from the latest interaction or all `None`; every other field is kept |
| BackendContacts.EnrichedIdempotent | backend/app.py:49-61 | enriching twice is enriching once |
| BackendContacts.Enrich | backend/app.py:40-61 | every contact in the list is enriched in place with its own latest interaction |
| BackendInteractions.FirstMissing | backend/app.py:154-157 | none is reported exactly when every required field is truthy; a reported field is a falsy required field |
| BackendInteractions.FirstMissingIsFirst | backend/app.py:155-157 | the reported field is the first falsy one in the checking order |
| BackendInteractions.NewInteraction | backend/app.py:159-165 | the record has the five fields; the three required ones as given; `next_action` defaults to the empty string; a falsy date is stored as `None` |
| BackendInteractions.CreateInteraction | backend/app.py:150-165 | 400 for a falsy body; raises for a body that is not an object; otherwise 400 naming the first falsy required field, or the stored record |
| BackendInteractions.TypeReportedBeforeSummary | backend/app.py:154-157 | a body missing both `type` and `summary` is told about `type` |
| BackendInteractions.NewInteractionRoundTrip | backend/app.py:159-165 | a stored record sent back is stored unchanged |
| BackendDashboard.SumRemove | backend/app.py:192-195 | the sum of a histogram does not depend on which key is taken first |
| BackendDashboard.SumBump | backend/app.py:195 | counting one more row adds one to the sum |
| BackendDashboard.CountByStatus | backend/app.py:191-195 | the histogram has a key exactly for each status that occurs, counts each status's rows, and sums to the total |
| BackendChat.ChatRequest | backend/app.py:271-275 | 400 for a falsy body or a falsy message; raises for a body that is not an object; otherwise the message |
| BackendChat.Iterated | backend/app.py:313-319 | a list yields its items; an empty dict or an empty string yields nothing; a non-empty dict or string raises on its first `f.get`, and any other value cannot be iterated |
| BackendChat.OpKindOneToOne | backend/app.py:324-337 | the seven op names select the seven comparisons one to one, and nothing else selects any |
| BackendChat.FilterOpsRaises | backend/app.py:319-321 | once one filter raises, the whole loop raises |
| BackendChat.FilterOpsSpec | backend/app.py:319-337 | one comparison for each filter with a known op, carrying that filter's column and value, in order; none for other filters; no op means equality |
| BackendChat.Filtered | backend/app.py:324-337 | only filters that select a comparison are kept |
| BackendChat.ChatQueryShape | backend/app.py:311-346 | the query starts with the table and the selection; it is ordered only for a truthy `order`, by `created_at` descending unless the plan says otherwise; it is limited, last, only for a truthy `limit` |
| BackendChat.AddFilter | backend/app.py:320-337 | one filter object adds its comparison step |
| BackendChat.BuildChatQuery | backend/app.py:311-346 | the loop builds `ChatQuery`, or raises exactly where `ChatQuery` is `None` |

## Left out

- HTTP helpers `apiGet`, `apiPost`, `apiPut` and `apiDelete`, and `fetch`: each request is recorded in `requests`, and its outcome is a parameter.
- The DOM: the markup of each table row and of the contact card, the toast timers, the focus and scroll calls, and the mobile sidebar toggle. The model keeps the row sequence, the indicators and the modals.
- `renderTimeline`, `formatDate` and `isOverdue`: `renderTimeline` only builds markup, `formatDate` formats a date for the `he-IL` locale, and `isOverdue` reads the wall clock through `new Date()`. Locale formatting and the clock are outside the model.
- The 300 ms debounce of the search box. Only the handler that runs when the timer fires, `SearchSettled`, is modelled.
- `toLowerCase` outside ASCII: `Strings.Lower` folds only `A`-`Z`. The Hebrew letters, which make up most of the data, have no case.
- JavaScript string length counts UTF-16 code units, and the model counts characters. `Truncate` and the trim lengths differ only for characters outside the Basic Multilingual Plane.
- Escape.Truncate: the source's `!str` also treats `null` and `undefined` as empty. In the model an absent value is the empty string.
- `$` patterns in the `replace` replacement string. A contact id or an escaped name holding `$&` or a similar pattern is inserted literally by the model, where the source would expand it; `escapeHtml` leaves `$` as it is.
- Dates are day numbers (`Option<int>`). `new Date` parsing, and invalid dates that compare as `NaN`, are left out.
- The engine's sort algorithm: `ListPipeline.SortByDate` is a stable insertion sort. `ListPipeline.SortedUnique` proves that every stable sort gives the same result.
- Interleaving of asynchronous work. Each mutation runs to completion as one step. Loads are split into a request and an arrival so that stale responses can be shown.
- Linkify.StepLinksEvery: the every-occurrence property is proved for a turn that starts from html without markup, which is the first contact the loop links. Later turns start from html that holds earlier links, and the mask argument needs a start character of the link found nowhere else.
- The chat link click handler (`chat.js` lines 98-110): it calls `showContactDetail`, which `AppState.App.ShowContactDetail` models.
- The database (Supabase) and the language model (OpenAI): the rows, the query plan and the summary are parameters. The system prompts, the fallback answer when the plan cannot be parsed, and running the query are left out.
- `get_contacts`: the status and search query it builds on the database is left out. Only the enrichment of the returned rows is modelled.
- `get_dashboard`: the follow-up count comes from a database query over dates and is left out. Only the status histogram is modelled.
- `get_contact`, `delete_contact` and `delete_interaction` are plain database calls and are left out.
- `backend/seed.py`, `backend/config.py` and `frontend/server.py` are not part of this model.
- Flask's `get_json` failing on a body that is not JSON; JSON floats (numbers are integers); the text of the 500 answers, which is modelled only as `Raised`.
- BackendChat.ChatRequest: the handler does not return the message; it goes on to the language model. The model stops once the check is passed.
- ChatSession.Chat.SendMessage: a response body with no `error` and no `reply` is not modelled, because `Replied` always carries a string. In the source, `reply` is then `undefined`, and the outcome depends on the roster:
  - A roster holding a contact with a non-empty name makes `text.includes` throw (chat.js line 78). The catch then shows the network-error bubble, and no assistant entry is pushed.
  - Otherwise an empty markup bubble is shown, and an assistant entry whose content is `undefined` is pushed.
