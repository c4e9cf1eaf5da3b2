# Gia phả front end: profile form, notification bell, sidebar and header in Dafny

This project models four front-end pieces of the Gia phả (family register) web
application and proves properties about them:

- **Profile form** (`genealogy_form.dfy`).
  - A stored person row is loaded into string-valued form state, with defaults for null columns.
  - The user edits one key at a time.
  - Saving refuses a name that is blank after trimming. Otherwise it builds the update payload: trimmed text, blank text as null, year inputs parsed as integers. The payload is written to the row whose handle is the loaded person's.
  - The people table is a map from handle to row, held by a `PeopleTable` object.
  - The component's `person`, `form` and `toast` state are fields of a `FormComponent` object.
- **Notification bell** (`notification_bell.dfy`).
  - A `Bell` object keeps the unread count, the set of notification ids already recorded, and the first-fetch flag.
  - The first answered fetch only records ids. Each later fetch raises one toast per id not recorded before, then records it.
  - A ghost history of toasted ids shows that no id is ever toasted twice.
  - The badge label is hidden at 0 and capped at "99+".
- **Sidebar** (`sidebar.dfy`).
  - The active-entry rule: exact match for "/", a plain prefix test for every other entry.
  - Administration entries appear only for administrators.
  - A `SidebarState` object holds the collapsed flag, with its mount, toggle, close and link-click transitions.
- **Header** (`header.dfy`).
  - The page title looked up by exact path.
  - The avatar initials from the display name or the e-mail address.
  - The short name on the account button.
  - The theme the toggle switches to.

`js_string.dfy` gives the JavaScript built-ins these rely on, as functions on strings: `trim`, `split` on one character, `join`, `slice(0, n)`, `toUpperCase`, `parseInt` and integer `toString`. `optional.dfy` holds `Option` (a nullable value) and `Result` (a value or an error message).

Reads and writes of the database are given to the model as values. The people table is a map from handle to row. A notification fetch is a `FetchOutcome`: it threw, or it answered with rows and a count. An update's answer is a `StoreReply`. The save time is a parameter, `now`.

## Model

| member | source | states |
|---|---|---|
| GenealogyForm.ParseYear | frontend/src/components/genealogy-form.tsx:230-233 | A blank year input, empty or all whitespace, saves as null. Any other input saves as what `parseInt` reads, with NaN as null. |
| GenealogyForm.PersonToForm | frontend/src/components/genealogy-form.tsx:81-105 | A null name loads as "", a null gender as 1, a null living flag as true and a null privacy flag as false. Each year input holds the stored year's decimal text, or "" when the year was null, and reads back through the save's year parsing as the stored year. |
| GenealogyForm.LoadedText | frontend/src/components/genealogy-form.tsx:84-103 | Every free-text input of a loaded form holds its column's text, or "" when the column is null. |
| GenealogyForm.YearText | frontend/src/components/genealogy-form.tsx:88-91 | A year input is "" exactly when the stored year is null. A non-negative year is written as digits only; a negative one is not. |
| GenealogyForm.YearRoundTrip | frontend/src/components/genealogy-form.tsx:88-91 | A stored year written as decimal text and read back with `parseInt` gives the same integer; a null year gives "", which saves as null. |
| GenealogyForm.NullIfBlank | frontend/src/components/genealogy-form.tsx:226 | Trimming with null for empty text gives null exactly when the text is all whitespace; otherwise it is the trimmed text, non-empty and with no whitespace at either end. |
| GenealogyForm.BuildPayload | frontend/src/components/genealogy-form.tsx:216-247 | The save is refused, with "Họ và tên không được để trống.", exactly when the name is all whitespace. On success: the saved name is the trimmed input and never empty; each year is null for an empty input and the `parseInt` value otherwise; gender, living and privacy flags are copied; the update time is the time of the save. |
| GenealogyForm.SavedText | frontend/src/components/genealogy-form.tsx:226-245 | Each of the fifteen free-text columns in the payload is its input trimmed, or null when the input is blank. |
| GenealogyForm.SavedNameNeverBlank | frontend/src/components/genealogy-form.tsx:217-225 | A save fails iff the trimmed name is empty. After a successful save the row's name is present, non-empty and equal to the trimmed input. |
| GenealogyForm.ApplyUpdate | frontend/src/components/genealogy-form.tsx:224-252 | The update overwrites exactly the payload's columns. Handle, generation, lineage flag, import id and creation time are not in the payload and keep their values. |
| GenealogyForm.UpdateRows | frontend/src/components/genealogy-form.tsx:249-252 | An update keyed on a handle changes only the row with that handle. No row is added or removed. A handle with no row changes nothing. |
| GenealogyForm.UpdateKeepsHandles | frontend/src/components/genealogy-form.tsx:249-252 | An update never moves a row: each row stays stored under its own handle. |
| GenealogyForm.TextRoundTrip | frontend/src/components/genealogy-form.tsx:84-226 | Trimmed text loaded into an input and saved back is unchanged. Both null and "" come back as null. |
| GenealogyForm.LoadThenSave | frontend/src/components/genealogy-form.tsx:81-247 | Loading a row with a non-blank name and saving it unchanged is accepted. The years come back as the stored integers, the flags and gender as stored or defaulted, and each text column as its trimmed value or null. |
| GenealogyForm.SaveUnchangedFormIsIdentity | frontend/src/components/genealogy-form.tsx:81-252 | For a row with a trimmed non-empty name, set flags and trimmed non-empty text, saving the unchanged form leaves the row exactly as it was, except for its update time. |
| GenealogyForm.WriteBackIsIdentity | frontend/src/components/genealogy-form.tsx:224-252 | Applying a payload that carries a row's own trimmed values changes nothing in that row except the update time. |
| GenealogyForm.WithField | frontend/src/components/genealogy-form.tsx:268-270 | After setting key `k` to `v`, key `k` reads `v` and every other key reads as before. |
| GenealogyForm.FailureMessage | frontend/src/components/genealogy-form.tsx:258-262 | The failure toast starts with "Lỗi: " and goes on with the error's message, or with "Không xác định" when the thrown value is not an error. |
| GenealogyForm.FormComponent.constructor | frontend/src/components/genealogy-form.tsx:181-189 | The component starts with no person, no form and no toast. |
| GenealogyForm.FormComponent.FetchPerson | frontend/src/components/genealogy-form.tsx:191-209 | An empty handle does nothing. A handle with no row shows "Không tìm thấy thành viên." and keeps the loaded state. Otherwise the row becomes `person` and its form becomes `form`. In a table keyed by handle, the loaded row is the one with handle `personHandle`. |
| GenealogyForm.FormComponent.HandleSave | frontend/src/components/genealogy-form.tsx:215-266 | With nothing loaded, nothing changes. A blank name shows the error toast and writes nothing. A rejected update shows "Lỗi: " with the error message, or "Không xác định", and writes nothing. An applied update changes only the loaded person's row, shows "Đã lưu thông tin thành công!" and reloads the row. The table keeps every row under its own handle. |
| GenealogyForm.FormComponent.Commit | frontend/src/components/genealogy-form.tsx:249-257 | An applied update rewrites only the loaded person's row and keeps the table keyed by handle. It shows the success toast and reloads the row; if the row is gone, the not-found toast replaces it. |
| GenealogyForm.FormComponent.SetField | frontend/src/components/genealogy-form.tsx:268-270 | A loaded form gets one key replaced. A missing form stays missing. |
| NotificationBell.ToastFor | frontend/src/components/notification-bell.tsx:42-52 | The toast carries the notification's title and body. It has a "Xem chi tiết" action to the link exactly when the link is non-empty. |
| NotificationBell.Announced | frontend/src/components/notification-bell.tsx:39-54 | The notifications a later batch announces, in batch order: never more than the batch holds. The lemmas below say which ones they are. |
| NotificationBell.AnnouncedAreNew | frontend/src/components/notification-bell.tsx:39-41 | Every announced notification comes from the batch and has an id that was not recorded before. |
| NotificationBell.NewIdsAnnounced | frontend/src/components/notification-bell.tsx:39-41 | Every id in the batch that was not recorded before is announced. |
| NotificationBell.AnnouncedDistinct | frontend/src/components/notification-bell.tsx:40-41 | No id is announced twice in one batch, even when the batch repeats it. |
| NotificationBell.AnnouncedExactlyNew | frontend/src/components/notification-bell.tsx:39-54 | In one batch, a notification is announced only if its id was not recorded before. Every such id is announced. No id is announced twice, even when the batch repeats it. |
| NotificationBell.ValidAfterAnnouncing | frontend/src/components/notification-bell.tsx:39-54 | Appending a batch's announced ids to earlier toasts keeps every toasted id distinct and recorded. |
| NotificationBell.Bell.constructor | frontend/src/components/notification-bell.tsx:15-17 | The bell starts with count 0, no recorded ids and the first-fetch flag clear. |
| NotificationBell.Bell.FetchCountAndNew | frontend/src/components/notification-bell.tsx:22-60 | A thrown fetch changes nothing. Otherwise the count becomes the returned count, or 0 when there is none. An answer without rows leaves ids and flag alone. The first answer with rows records its ids, sets the flag and raises nothing. A later answer raises, in order, one toast per id not recorded before and records them. The recorded set only grows, the flag never goes back, and no id is ever toasted twice. |
| NotificationBell.Bell.Seed | frontend/src/components/notification-bell.tsx:35-37 | The first batch adds every returned id to the recorded set and sets the first-fetch flag. |
| NotificationBell.Bell.Announce | frontend/src/components/notification-bell.tsx:38-55 | A later batch yields exactly the toasts for the notifications it announces. It records every returned id and keeps every toasted id distinct and recorded. |
| NotificationBell.Bell.RecordNew | frontend/src/components/notification-bell.tsx:39-54 | The loop over a later batch, in row order, adds every returned id to the recorded set. It yields exactly one toast per announced notification, and the toast history grows by exactly their ids. |
| NotificationBell.BadgeLabel | frontend/src/components/notification-bell.tsx:104-107 | The badge is hidden iff the count is 0 and reads "99+" above 99. Otherwise it is the count's decimal text: one or two digits, no leading zero, which `parseInt` reads back as the count. |
| Sidebar.IsMainActive | frontend/src/components/layout/sidebar.tsx:137-140 | A main entry is active on its own path, and only on paths that begin with its path. |
| Sidebar.IsAdminActive | frontend/src/components/layout/sidebar.tsx:167 | An administration entry is active exactly on the paths that begin with its path. |
| Sidebar.HomeActiveOnlyAtRoot | frontend/src/components/layout/sidebar.tsx:137-140 | The "/" entry is active iff the path is exactly "/". |
| Sidebar.MainActiveIsPrefix | frontend/src/components/layout/sidebar.tsx:137-140 | Any other main entry is active iff its path is a prefix of the current path. |
| Sidebar.PrefixNotSegmentAware | frontend/src/components/layout/sidebar.tsx:137-140 | The prefix test ignores path segments: "/feedback" highlights "/feed" and "/people/I0001" highlights "/people", but "/admin/people" does not highlight "/people". |
| Sidebar.NavHrefsPrefixFree | frontend/src/components/layout/sidebar.tsx:28-37 | Apart from "/", no main entry's path is a prefix of another's. |
| Sidebar.AdminHrefsPrefixFree | frontend/src/components/layout/sidebar.tsx:39-45 | No administration entry's path is a prefix of another's. |
| Sidebar.AtMostOneMainActive | frontend/src/components/layout/sidebar.tsx:137-150 | For every path, at most one main entry is highlighted. |
| Sidebar.AtMostOneAdminActive | frontend/src/components/layout/sidebar.tsx:163-172 | For every path, at most one administration entry is highlighted. |
| Sidebar.Entries | frontend/src/components/layout/sidebar.tsx:137-175 | All main entries are rendered in order, each highlighted by the main rule. The administration entries follow, only for an administrator, each highlighted by the prefix rule. |
| Sidebar.SidebarState.constructor | frontend/src/components/layout/sidebar.tsx:49 | The panel starts collapsed. |
| Sidebar.SidebarState.Mount | frontend/src/components/layout/sidebar.tsx:52-56 | On mount the panel opens when the viewport is at least 1024 wide. Otherwise it stays as it was. |
| Sidebar.SidebarState.Toggle | frontend/src/components/layout/sidebar.tsx:58 | Toggle flips the collapsed flag. |
| Sidebar.SidebarState.Close | frontend/src/components/layout/sidebar.tsx:59 | Close leaves the panel collapsed. |
| Sidebar.SidebarState.ClickLink | frontend/src/components/layout/sidebar.tsx:213-215 | A link click collapses the panel below 1024 and leaves it unchanged otherwise. |
| Sidebar.ToggleTwice | frontend/src/components/layout/sidebar.tsx:58 | Toggling twice restores the state. |
| Sidebar.CloseTwice | frontend/src/components/layout/sidebar.tsx:59 | Closing twice leaves the panel collapsed, the same as closing once. |
| Sidebar.MountFresh | frontend/src/components/layout/sidebar.tsx:49-56 | A freshly mounted panel is collapsed iff the viewport is narrower than 1024. |
| Header.PageTitle | frontend/src/components/layout/header.tsx:21-40 | The title is the table entry for the exact path, otherwise "Thông tin chi tiết". It is never empty. |
| Header.SubPageHasDefaultTitle | frontend/src/components/layout/header.tsx:21-40 | Every titled path followed by "/" and more text gets the default title, for example "/people/I0001", because the lookup is by exact path. |
| Header.ShortName | frontend/src/components/layout/header.tsx:118 | The short name is never empty. A missing or empty name gives "Thành viên". |
| Header.FirstChars | frontend/src/components/layout/header.tsx:45-46 | Mapping words to their first characters and joining gives at most one character per word, and exactly one per word when no word is empty. |
| Header.FirstCharsOfSplit | frontend/src/components/layout/header.tsx:44-46 | Taking the first character of every piece of `split(" ")` yields exactly the characters that begin a word. The empty pieces left by repeated, leading or trailing spaces contribute nothing. |
| Header.Initials | frontend/src/components/layout/header.tsx:42-49 | With a non-empty name: the word-initial letters, upper-cased, cut to two. Otherwise: the e-mail's first two characters upper-cased, or "?" when the e-mail is missing or empty. The result has one or two characters, except for a non-empty name with no word-initial letter. |
| Header.WordStartsBeginWords | frontend/src/components/layout/header.tsx:42-48 | Every letter taken for the initials is a non-space character at the start of the name or right after a space. |
| Header.BlankNameHasNoInitials | frontend/src/components/layout/header.tsx:42-49 | Every non-empty name made only of spaces is truthy, so its initials are empty, whatever the e-mail, and "?" is not used. |
| Header.InitialsSkipEmptyWords | frontend/src/components/layout/header.tsx:44-46 | "a  b" gives "AB": the empty word between the two spaces adds nothing. |
| Header.InitialsFromEmail | frontend/src/components/layout/header.tsx:49 | Without a name, "an@example.org" gives "AN". An empty or missing e-mail gives "?". |
| Header.ShortNameIsLastWord | frontend/src/components/layout/header.tsx:118 | The short name is "Thành viên" iff the name is missing, empty or ends with a space. Otherwise it is the text after the last space: a space-free suffix preceded by a space, or the whole name. |
| Header.NextTheme | frontend/src/components/layout/header.tsx:78 | The toggle picks "light" iff the theme is "dark", and "dark" otherwise. |
| Header.ToggleThemeTwice | frontend/src/components/layout/header.tsx:78 | From light or dark the toggle always changes the theme. Toggling twice returns to it. |
| JsString.Trim | frontend/src/components/genealogy-form.tsx:217 | `trim` gives the slice of the input that lies between a leading and a trailing run of whitespace, and has no whitespace at either end. It is empty iff the input is all whitespace, and already-trimmed text is unchanged. |
| JsString.ParseInt | frontend/src/components/genealogy-form.tsx:230-233 | `parseInt` is NaN exactly when no digit follows the leading whitespace and the optional sign. |
| JsString.DecimalString | frontend/src/components/genealogy-form.tsx:88-91 | `toString` of a non-negative integer is non-empty digits, starting with '0' only for 0. A negative integer gives '-' followed by digits that do not start with '0'. |
| JsString.ParseDecimal | frontend/src/components/genealogy-form.tsx:230 | `parseInt` reads back every integer that `toString` writes. |
| JsString.ParseBlank | frontend/src/components/genealogy-form.tsx:230 | `parseInt` of an all-whitespace string is NaN, which is sent as null. |
| JsString.Split | frontend/src/components/layout/header.tsx:44-45 | `split(c)` gives one more piece than there are occurrences of `c`, so never zero pieces. |
| JsString.JoinSplit | frontend/src/components/layout/header.tsx:44 | Joining the pieces of `split(c)` with `c` gives back the string. |
| JsString.Last | frontend/src/components/layout/header.tsx:118 | `pop()` returns the element whose removal leaves the rest of the sequence: the sequence is the rest followed by it. |
| JsString.SplitLast | frontend/src/components/layout/header.tsx:118 | The last piece of a split is the whole string when there is no separator. Otherwise it is a suffix right after a separator. |
| JsString.SplitPiecesLackSeparator | frontend/src/components/layout/header.tsx:118 | No piece of `split(c)` contains `c`. |
| JsString.ToUpper | frontend/src/components/layout/header.tsx:47 | Upper-casing keeps the length and maps each character on its own. |
| JsString.Take | frontend/src/components/layout/header.tsx:48 | `slice(0, n)` is the prefix of length `n`, or the whole string when it is shorter. |

## Left out

- Rendering is not modelled: JSX, CSS classes, icons, badges on the profile page, and dropdown menus.
- The auto-close timer of the profile form's toast is not modelled. It is a clock.
- The notification toasts' `duration` and `closeButton` options are not modelled. They only affect display.
- The notification bell's realtime channel, 15-second polling and window event listener are not modelled. They only decide when a fetch runs, and each fetch is modelled.
- The notification query's own filter, order and limit are not modelled. A fetch is given as the rows and count the query returned.
- The `loading` and `saving` flags, and the interleaving of overlapping saves and fetches, are not modelled.
- The save button being disabled while a save runs is not modelled.
- `new Date().toISOString()` is the parameter `now`. Date formatting for display is not modelled.
- GenealogyForm.FormComponent.FetchPerson: a failed read of a row that is present (for example a network error) is not modelled; a present row always loads. So the reload after a successful save never shows the "not found" toast while the row exists, which the application can do when that read fails.
- GenealogyForm.FormComponent.HandleSave: an update that matches no row counts as applied, as the store reports no error for it. The refetch then shows the "not found" toast.
- GenealogyForm.FormComponent.HandleSave: a thrown value's message is given as `Rejected(Some(message))` for an `Error` instance and `Rejected(None)` otherwise. Whether the store's error object is an `Error` instance is not modelled.
- JsString.ToUpper: only the ASCII letters a-z are upper-cased. Other letters, such as Vietnamese letters with diacritics, are kept as they are.
- JsString.ParseInt: models decimal numerals only. The "0x" prefix and the loss of precision beyond 2^53 are not modelled. A `NaN` result is `None`, because the payload is sent as JSON, where `NaN` becomes null.
- JsString.DecimalString: writes every integer in plain decimal. The exponent form that `toString` uses from 10^21 up is not modelled.
- Strings are sequences of Unicode characters, not UTF-16 code units. A character outside the Basic Multilingual Plane is one character here, so `slice(0, 2)` and `w[0]` can differ from the browser for such characters.
- `frontend/src/lib/supabase.ts` (the database client), `frontend/src/app/layout.tsx` (page metadata and providers) and `frontend/src/lib/mock-data.ts` (empty sample arrays) are not part of this model.
- The family-graph logic (families, generations, cycle guard, orphan cleanup) is not part of this model.
