# Rolodex dashboard: a Dafny model of the contact book

Rolodex is a personal address book in the browser. A signed-in user keeps a
list of contacts (name, phone, address) in a hosted database. The dashboard
screen (`app/dashboard/page.tsx`) holds that list in memory, together with:

- a search filter;
- a form for a new contact and a form for editing one;
- per-row delete;
- a single auto-expiring toast.

This project models that client-side state and proves what its handlers and
derived views promise.

The model has six modules:

- `Text` (`text.dfy`): the JavaScript string built-ins the page uses.
  - `trim()`, over the exact ECMAScript whitespace and line-terminator set.
  - `toLowerCase` / `toUpperCase`, over ASCII letters.
  - `includes`, `split(' ')` / `join`, and `charCodeAt(0)` as a UTF-16 code unit.
  - Decimal rendering of a count, with its round trip back to the number.
- `Sequences` (`sequences.dfy`): `Array.prototype.filter` as `Filter`, and
  the order-preserving subsequence relation.
- `ContactBook` (`contacts.dfy`): everything the page computes without
  changing state.
  - The `Contact` and `Draft` records.
  - `hasValue`, `getInitials`, `getAvatarColor`.
  - The memoised views `withPhone`, `withAddress`, `filtered`, `countLabel`.
  - The list transformations the handlers apply: append, replace by id, remove by id.
- `DashboardPage` (`dashboard.dfy`): the component as a class `Dashboard`.
  - Each `useState` slot is a field, and so is the toast timer.
  - Each handler is a method with a field-level `modifies` frame. Its
    `ensures` give the whole new state in terms of the old one.
- `Outcomes` (`outcomes.dfy`): `Option`, and the replies of the hosted backend.
- `Scenarios` (`scenarios.dfy`): runs from the initial state, and concrete
  search and count examples.

How the outside world appears in the model:

- Every backend call is an oracle parameter: `Reply<T>` (`Ok(data)` or `Err`)
  or `Ack` (`Acked` or `Failed`). The handler returns the request it sent
  (`NewRow`, `RowUpdate`, the deleted id, the owner id of the fetch).
- The toast's `setTimeout` is a generation token. `pendingTimer` is the one
  live timer and `nextTimer` the next token to hand out.
  - `Dashboard.Valid()` says a toast is showing exactly while a timer is
    pending, and that the pending timer is the latest one issued.
  - `TimerFired(t)` clears the toast only when `t` is still pending.

Behaviours of the code that the model keeps as written:

- `filtered` tests the query for blankness with `trim()`, but matches with
  the untrimmed query. Phone is matched case-sensitively and only when
  non-empty. Name and address are matched after lower-casing.
- `saveEdit` sends trimmed values to the backend, but merges the untrimmed
  edit form into the local list. The scenario `EditKeepsUntrimmedValues`
  exhibits it.
- `saveEdit`'s guard `!editingId` also rejects an id equal to `""`.
- If `saveContact` runs before the user has loaded, `user.id` throws after
  `setSaving(true)`. The handler stops there, `saving` stays set, and nothing
  is sent.
- A failed create or update still clears the form and leaves adding/editing
  mode.
- A rejected `navigator.clipboard.writeText` throws before `showToast`, so
  no "Copied!" appears. `CopyToClipboard` takes the write's outcome.
- `getAvatarColor("")` indexes the palette with NaN and yields `undefined`.
  The model returns `None`.

## Model

| member | source | states |
|---|---|---|
| `Text.Trim` | app/dashboard/page.tsx:576 | the result is the slice of the input that leaves out exactly the leading and trailing ECMAScript whitespace: everything cut is whitespace, and a non-empty result starts and ends with non-whitespace |
| `Text.IsBlank` | app/dashboard/page.tsx:572 | `!s.trim()` holds exactly when every character of `s` is whitespace |
| `Text.TrimIdempotent` | app/dashboard/page.tsx:598 | trimming an already trimmed value changes nothing |
| `Text.Lower` | app/dashboard/page.tsx:555 | `toLowerCase` keeps the length and lowers each character in place |
| `Text.Upper` | app/dashboard/page.tsx:25 | `toUpperCase` keeps the length and upper-cases each character in place |
| `Text.Contains` | app/dashboard/page.tsx:557-559 | `includes` never finds a string longer than the one searched, and always finds the empty string |
| `Text.ContainsIffSlice` | app/dashboard/page.tsx:557-559 | `includes(sub)` holds exactly when `sub` is some slice `s[i..j]` of the string |
| `Text.LowerContains` | app/dashboard/page.tsx:557 | an occurrence of the query in a field is still an occurrence after lower-casing both |
| `Text.Split` | app/dashboard/page.tsx:25 | `split(' ')` returns at least one piece, and no piece contains a space |
| `Text.SplitJoin` | app/dashboard/page.tsx:25 | `split(' ')` followed by `join(' ')` gives back the name |
| `Text.Decimal` | app/dashboard/page.tsx:565 | a count renders as a non-empty string of decimal digits with no leading zero |
| `Text.DecimalRoundTrip` | app/dashboard/page.tsx:565 | reading back the rendered digits gives the count |
| `Text.DecimalInjective` | app/dashboard/page.tsx:565 | different counts render differently |
| `Text.CodeUnit` | app/dashboard/page.tsx:28 | `charCodeAt(0)` is a UTF-16 code unit below 0x10000: the character's code below U+10000, and above it the high surrogate whose 0x400-wide block holds the character |
| `Sequences.Filter` | app/dashboard/page.tsx:550 | a filter result is no longer than its input; it keeps exactly the elements satisfying the condition |
| `Sequences.FilterIsSubsequence` | app/dashboard/page.tsx:556-560 | a filter result is an order-preserving subsequence of its input |
| `Sequences.FilterLength` | app/dashboard/page.tsx:550-551 | a filter result's length is the number of elements satisfying the condition |
| `Sequences.FilterKeepsAll` | app/dashboard/page.tsx:612 | a filter whose condition holds for every element returns its input |
| `ContactBook.HasValue` | app/dashboard/page.tsx:30-32 | `hasValue(s)` holds exactly when `s` has a character that is not whitespace |
| `ContactBook.Initials` | app/dashboard/page.tsx:24-26 | `getInitials` has at most two characters: the upper-cased first two word-initial letters of the space-separated words |
| `ContactBook.SplitWordInitials` | app/dashboard/page.tsx:25 | splitting at spaces, dropping empty pieces and taking each piece's first letter yields exactly the letters that begin a word |
| `ContactBook.AvatarColor` | app/dashboard/page.tsx:19-29 | a non-empty name gets a palette entry, the one at its first UTF-16 code unit modulo 8; the empty name gets none |
| `ContactBook.AvatarColorByFirstChar` | app/dashboard/page.tsx:28 | two names with the same first character get the same colour |
| `ContactBook.WithField` | app/dashboard/page.tsx:637-639 | changing a form field sets that field and leaves the other two as they were |
| `ContactBook.WithPhone` | app/dashboard/page.tsx:550 | `withPhone` is the order-preserving subsequence of contacts with a non-blank phone; its length counts them and is at most the list length |
| `ContactBook.WithAddress` | app/dashboard/page.tsx:551 | `withAddress` is the order-preserving subsequence of contacts with a non-blank address; its length counts them and is at most the list length |
| `ContactBook.Matches` | app/dashboard/page.tsx:556-560 | the filter callback accepts every contact for the empty query, and every contact whose name, phone or address contains the query as typed |
| `ContactBook.Filtered` | app/dashboard/page.tsx:553-561 | a query that is blank after trim returns the list itself. Otherwise the result holds exactly the contacts that `Matches` accepts (lowered name contains the lowered query, or non-empty phone contains the raw query, or non-empty lowered address contains the lowered query), and its length is the number of accepted entries, so repeated entries are all kept. The result is always an order-preserving subsequence |
| `ContactBook.CountLabel` | app/dashboard/page.tsx:563-567 | "No contacts yet" for 0, "1 person saved" for 1, "n people saved" with n in decimal otherwise |
| `ContactBook.CountLabelInjective` | app/dashboard/page.tsx:563-567 | different contact counts never produce the same label |
| `ContactBook.ReplaceById` | app/dashboard/page.tsx:601 | length and order are kept; every contact with the edited id takes the form's name, phone and address and keeps its id and owner; every other contact is unchanged |
| `ContactBook.ReplaceKeepsUnique` | app/dashboard/page.tsx:601 | an edit keeps the ids of the list unique |
| `ContactBook.RemoveById` | app/dashboard/page.tsx:612 | the result holds exactly the contacts with another id, in their original order, and its length is the number of such entries |
| `ContactBook.RemovePresentUnique` | app/dashboard/page.tsx:612 | with unique ids and the id present, a delete shortens the list by exactly one |
| `ContactBook.RemoveKeepsUnique` | app/dashboard/page.tsx:612 | a delete keeps the ids of the list unique |
| `ContactBook.AppendKeepsUnique` | app/dashboard/page.tsx:579 | appending a row with a new id keeps the ids unique |
| `DashboardPage.InsertTrimmed` | app/dashboard/page.tsx:576 | the insert carries the user's id; no field of it has whitespace at either end; its name is empty exactly when the form's name is blank |
| `DashboardPage.UpdateTrimmed` | app/dashboard/page.tsx:598 | the update targets the edited id; no field of it has whitespace at either end; its name is empty exactly when the edit form's name is blank |
| `DashboardPage.Dashboard.constructor` | app/dashboard/page.tsx:507-524 | the initial state: no user, no contacts, empty forms, no edit, no delete pending, no toast and no timer |
| `DashboardPage.Dashboard.Load` | app/dashboard/page.tsx:528-538 | without an identity the page navigates away and fetches nothing; with one it records the user and queries that user's rows; fetched rows replace the list (a null `data` counts as no rows); on error the list is left as it was |
| `DashboardPage.Dashboard.ShowToast` | app/dashboard/page.tsx:542-546 | the new message replaces any current one; a fresh timer supersedes the pending one |
| `DashboardPage.Dashboard.TimerFired` | app/dashboard/page.tsx:545 | only the pending timer's expiry clears the toast; a superseded timer changes nothing |
| `DashboardPage.Dashboard.SaveContact` | app/dashboard/page.tsx:571-583 | a blank name changes nothing and sends nothing. With no user loaded, `saving` is left set and nothing is sent. Otherwise the trimmed fields are sent with the user's id. On a returned row, exactly that row is appended at the tail; on error or no row, the list is unchanged. Afterwards the form is empty, adding mode is off and `saving` is false, and the toast is given for each reply. A returned row with a new id keeps the ids unique |
| `DashboardPage.Dashboard.ApplyInsertReply` | app/dashboard/page.tsx:578-579 | after the insert returns: an error shows "Failed to save contact"; a returned row is appended at the tail and "<name> added!" shown; no row changes nothing. A returned row with a new id keeps the ids unique |
| `DashboardPage.Dashboard.StartEdit` | app/dashboard/page.tsx:585-588 | editing targets the contact's id, and the edit form holds the contact's name, phone and address |
| `DashboardPage.Dashboard.HandleEditChange` | app/dashboard/page.tsx:590-592 | only the named field of the edit form changes |
| `DashboardPage.Dashboard.SaveEdit` | app/dashboard/page.tsx:594-604 | a blank name or a null/empty `editingId` changes nothing and sends nothing. Otherwise the trimmed values are sent for that id. On success the list becomes `ReplaceById` with the untrimmed form; on error it is unchanged. Either way `editingId` becomes null and `saving` false. Unique ids stay unique |
| `DashboardPage.Dashboard.SubmitEdit` | app/dashboard/page.tsx:595-603 | past the guard: the trimmed update of the edited id is sent, the reply is applied and announced, then `editingId` is null and `saving` false |
| `DashboardPage.Dashboard.ApplyUpdateReply` | app/dashboard/page.tsx:600-601 | after the update returns: on success the list becomes `ReplaceById` with the untrimmed edit form and "Contact updated!" shows; on error the list is kept and "Failed to update" shows. Unique ids stay unique |
| `DashboardPage.Dashboard.CancelEdit` | app/dashboard/page.tsx:606 | editing ends |
| `DashboardPage.Dashboard.DeleteContact` | app/dashboard/page.tsx:608-614 | the delete is sent for the id. On success the list becomes `RemoveById`; on error it is unchanged. `deletingId` is null afterwards, and the removed/failed toast is showing. Unique ids stay unique |
| `DashboardPage.Dashboard.CopyToClipboard` | app/dashboard/page.tsx:616-619 | "Copied!" is shown only once the clipboard write has succeeded; a rejected write leaves the toast state untouched |
| `DashboardPage.Dashboard.SignOut` | app/dashboard/page.tsx:621-625 | sign-out is marked as running and the page navigates away whatever the provider answers |
| `DashboardPage.Dashboard.HandleAddClick` | app/dashboard/page.tsx:627-630 | adding mode flips and `editingId` becomes null |
| `DashboardPage.Dashboard.CancelAdd` | app/dashboard/page.tsx:632-635 | adding mode ends and the form is emptied |
| `DashboardPage.Dashboard.HandleFormChange` | app/dashboard/page.tsx:637-639 | only the named field of the new-contact form changes |
| `Scenarios.LaterToastWins` | app/dashboard/page.tsx:542-546 | of two toasts shown in a row, the first timer's expiry leaves the second message up and the second timer's expiry clears it |
| `Scenarios.CreateThenDelete` | app/dashboard/page.tsx:571-614 | from an empty list, saving "Jane Smith" sends the trimmed row and yields the one stored contact; deleting its id empties the list |
| `Scenarios.BootFetchFails` | app/dashboard/page.tsx:533-535 | a failed fetch at boot leaves the list empty, with no toast and no navigation |
| `Scenarios.BootWithoutIdentity` | app/dashboard/page.tsx:531 | without an identity the page navigates away and the list stays empty |
| `Scenarios.FailedEditClosesForm` | app/dashboard/page.tsx:600-602 | a failed update keeps the list and still ends editing |
| `Scenarios.EditKeepsUntrimmedValues` | app/dashboard/page.tsx:598-601 | after a successful edit of the name to "Ann ", "Ann" is sent but "Ann " is stored locally |
| `Scenarios.JaneByName` | app/dashboard/page.tsx:553-557 | "jane" and "JANE" find "Jane Doe" by name |
| `Scenarios.JanePhoneFound` | app/dashboard/page.tsx:553-558 | "555-0100" finds "Jane Doe" by phone |
| `Scenarios.JaneOtherNumberMissing` | app/dashboard/page.tsx:553-560 | "555-0200" finds nothing: neither the name, the phone nor the empty address contains it |
| `Scenarios.StatsOfTwo` | app/dashboard/page.tsx:550-551 | for Ann with phone "111" and Ben with address "Main St", one contact has a phone and one has an address |
| `Scenarios.TwoPeopleLabel` | app/dashboard/page.tsx:563-567 | two contacts are labelled "2 people saved" |

## Left out

- Rendering is not modelled: the `STYLES` string, the JSX, `StatCard`, `ContactCard`, `EditCard` and the search-results caption. They are presentation only.
- The sign-in screen `app/page.tsx` is not part of this model. It only starts the OAuth redirect.
- The hosted backend and auth provider (select, insert, update, delete, `getUser`, `signOut`) are not called. Their answers are oracle parameters, and the requests are returned values.
- Browser I/O is not modelled: `location.href` is a `leftPage` flag, and the clipboard write is an outcome parameter.
- Timing is not modelled. The 180 ms debounce of the search box is absent: the debounced `search` is the query argument of `Filtered`. The toast's 3000 ms is absent: timers are tokens whose expiry is an explicit event, `TimerFired`.
- Overlapping async handlers are not modelled. Each handler runs to completion before the next event, so nothing observes `saving` or `deletingId` while a request is in flight. Last-writer-wins between two in-flight saves is also absent.
- DashboardPage.Dashboard.DeleteContact: states that `deletingId` is null afterwards but not its value while the request is in flight, because handlers run to completion.
- DashboardPage.Dashboard.SaveContact: states `saving` only at the end of the handler, not while the insert is in flight, for the same reason.
- Case mapping covers ASCII letters only. Full Unicode `toLowerCase`/`toUpperCase` is absent, including mappings that change a string's length.
- ContactBook.Initials: takes a word's first character as a whole code point, where `n[0]` in JavaScript is a UTF-16 code unit. This differs only for names with characters beyond U+FFFF.
- A contact's `phone` and `address` are strings, as the `Contact` type declares. A database row holding `null` there is not modelled. For strings, the page's null guards (`c.phone || ''`, `hasValue` on null) coincide with the string case.
- Exceptions other than the `user.id` one in `saveContact` and the rejected clipboard write are not modelled.
