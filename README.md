# Mist Giver library portal: access, audit, moderation and curation rules

This project models the logic of the Mist Giver digital library portal, a
Next.js application over a hosted relational store. It leaves out the markup.
Visitors browse books, and signed-in readers read books online or open them.
Each download the store accepts leaves a download record; reading in the page
leaves none. Administrators
curate the catalog and read contact messages.

The hosted tables become an in-memory `Store.Database`. It has a field per table:
- `books: map<Id, Book>`
- `downloads: seq<Download>`
- `messages: map<Id, Message>`
- `roles: map<Id, string>`
- `profiles: map<Id, Profile>`

The components issue six single-table writes. Five of them are pure functions
in `Store`: `MarkRead`, `SetEnabled`, `RemoveBook`, `AddBook` and `UpdateBook`.
A `Database` method applies one of them and leaves the other tables alone. The
sixth is the download record, which `Database.InsertDownload` appends to
`downloads`, again leaving the other tables alone.

Components that hold React state are classes: `BookDetails`, `MessagesTable`,
`BooksTable`, `AddBookButton`, `EditBookDialog` and `BooksSearch`. Their `var`
fields are that state. The props they read become `const` fields: the book and
the caller in `BookDetails`, the book in `EditBookDialog`, and the page's
current query parameters in `BooksSearch`. Every class except `BooksSearch`
also holds a reference to the store; `BooksSearch` writes nothing. The handlers
are methods whose contracts give the new state and, where they write, the new
tables. Redirects, opened tabs and
`onClose` calls come back as returned values.

The server-side helpers are pure functions over the tables. Role and profile
resolution, the admin layout guard, the dashboard figures and the users list
therefore cannot write anything. The sidebar highlight runs in the browser and
is a pure function of the current path.

Things that happen outside the model are parameters:
- the caller the identity provider reports (`Option<User>`);
- the ids and timestamps the store assigns;
- whether a count or list query was answered;
- the error a write returned.

A few points where the model follows the code closely:
- JavaScript truthiness of `string | null` is modelled exactly (`Truthy`,
  `OrElse`). An empty role reads as `"user"`, an empty pending delete id counts
  as "no id", and an empty email shows as `""`.
- The download insert's reply is never inspected. A rejected insert still opens
  the book. Only an exception thrown by the insert skips opening it.
- URLSearchParams is an ordered list of pairs in which a name may repeat. It has
  the platform's `get`, `delete` and `set` rules. `createQueryString`'s result
  is proved idempotent pair for pair.
- `"all"` clears any parameter, not only the category. Searching for the word
  "all" therefore drops the search filter (`SearchingForAllDropsSearch`).
- The sidebar matches by plain character prefix. `/admin/booksellers`
  highlights Books, and no path highlights two entries (`AtMostOneActive`).

## Model

| member | source | states |
|---|---|---|
| Auth.UserRole | lib/auth.ts:9-22 | No role exactly for an anonymous caller. A resolved role is never empty, and is either "user" or the caller's stored role row. |
| Auth.IsAdminIff | lib/auth.ts:24-27 | isAdmin holds iff the caller is signed in and has a stored role row equal to "admin". Anonymous callers are never admin. |
| Auth.IsAdmin | lib/auth.ts:24-27 | isAdmin is role === "admin" on the resolved role. The "user" default never makes an admin: an admin always has a stored role row. |
| Auth.MissingRoleIsUser | lib/auth.ts:21 | A signed-in caller with no role row, or with an empty role, resolves to "user" and is not admin. |
| Auth.StoredRoleResolves | lib/auth.ts:15-21 | A signed-in caller with a stored non-empty role resolves to exactly that role. |
| Auth.UserProfile | lib/auth.ts:29-42 | No profile for an anonymous caller. For a signed-in caller there is a profile iff the caller's row exists, and it is that row. |
| Auth.ProfileIsCallers | lib/auth.ts:35-41 | The resolved profile's id is the caller's id. |
| AdminLayout.Guard | app/admin/layout.tsx:11-30 | Anonymous callers are sent to /auth/login. Signed-in non-admins are sent to /. The admin area renders iff the caller's stored role is "admin". The sidebar gets the email, or "" when it is absent. |
| AdminLayout.AnonymousIgnoresRoles | app/admin/layout.tsx:11-15 | For an anonymous caller the outcome is the login redirect whatever the role table holds. |
| AdminLayout.NoRowNoAdminArea | app/admin/layout.tsx:17-21 | A signed-in caller without a role row is redirected to /. |
| BookAccess.BookDetails.HandleDownload | components/books/book-details.tsx:33-55 | An anonymous caller goes to login with no record and no tab opened. A signed-in caller gets exactly one (user.id, book.id) record when the insert is accepted. The URL opens unless the insert threw. downloading ends false. Books, messages, roles and profiles are untouched. |
| BookAccess.NoDeduplication | components/books/book-details.tsx:43-46 | n accepted downloads of one book append n records, each for that user and book. Earlier records are kept as they were. |
| BookAccess.OneMoreDownload | components/books/book-details.tsx:43-46 | One more accepted download after a run of them gives the trail of the whole run, so NoDeduplication covers repeated handleDownload calls. |
| BookAccess.BookDetails.HandleRead | components/books/book-details.tsx:57-63 | An anonymous caller goes to login and the reader stays as it was. A signed-in caller gets the reader. No download is recorded. |
| BookAccess.BookDetails.CloseReader | components/books/book-details.tsx:144 | The close button hides the reader. |
| Moderation.MessagesTable.HandleView | components/admin/messages-table.tsx:44-54 | The message becomes the selected one. An unread row is marked read in the store. A row shown as read leaves the store as it was. |
| Moderation.MessagesTable.MarkAsRead | components/admin/messages-table.tsx:56-62 | The store marks the message with that id read, and nothing else changes. |
| Moderation.MessagesTable.CloseDetail | components/admin/messages-table.tsx:134 | Closing the dialog clears the selection. |
| Store.MarkRead | components/admin/messages-table.tsx:48-51 | Marking read sets the row's is_read to true, keeps its other columns, and leaves every other row and the key set unchanged. |
| Moderation.MarkReadIdempotent | components/admin/messages-table.tsx:56-62 | Marking read twice equals marking read once. |
| Moderation.MarkReadOnlyForward | components/admin/messages-table.tsx:50-51 | A read message stays read, the marked message ends read, and no other message changes. |
| Moderation.MarkReadOnReadIsNoop | components/admin/messages-table.tsx:47 | Marking an already-read message read leaves the table equal to what it was. |
| Moderation.OfferedExactlyWhenItChanges | components/admin/messages-table.tsx:116 | "Mark as read" is offered for a stored row exactly when marking it read changes the table. |
| Moderation.OffersMarkAsRead | components/admin/messages-table.tsx:116 | The "Mark as read" button is offered exactly on the rows whose badge reads "New". |
| Moderation.StatusLabel | components/admin/messages-table.tsx:88-89 | The badge reads "New" iff the message is unread, and "Read" iff it is read. |
| Curation.BooksTable.ToggleEnabled | components/admin/books-table.tsx:69-72 | The book with that id gets enabled = the opposite of the shown value. Other books and other tables are unchanged. |
| Store.SetEnabled | components/admin/books-table.tsx:70 | Only the named row's enabled column changes. The key set and every other row are kept. |
| Curation.ToggleTwiceRestores | components/admin/books-table.tsx:69-72 | Toggling a book twice from the shown value restores the book table exactly. |
| Curation.BooksTable.HandleDelete | components/admin/books-table.tsx:58-67 | With no truthy pending id nothing changes. Otherwise that book is removed, the pending id is cleared (so the dialog closes), and loading ends false. |
| Store.RemoveBook | components/admin/books-table.tsx:62 | A hard delete: the id leaves the key set and every other row is kept. |
| Curation.BooksTable.AskDelete | components/admin/books-table.tsx:142 | The row menu sets the pending delete id. |
| Curation.BooksTable.DismissDelete | components/admin/books-table.tsx:157 | Dismissing clears the pending id, so the dialog is closed. |
| Curation.BooksTable.DeleteDialogOpen | components/admin/books-table.tsx:157 | `!!deleteId`: the confirmation is closed with no pending id. When it is open, the pending id is a non-empty string. |
| Curation.BooksTable.OpenEditor | components/admin/books-table.tsx:124 | The Edit item opens the editor on that book. |
| Curation.BooksTable.CloseEditor | components/admin/books-table.tsx:176 | The editor's onClose clears the book being edited. |
| Curation.StatusBadge | components/admin/books-table.tsx:111-112 | The badge reads "Enabled" iff the book is enabled, "Disabled" iff not. |
| Curation.BooksTableView | components/admin/books-table.tsx:74-80 | The empty-state notice shows iff there are no books. Otherwise there is one status per book, in order. |
| Curation.AddBookButton.HandleSubmit | components/admin/add-book-button.tsx:30-56 | On a store error: the message is shown, the dialog stays as it was, and no book is added. On success: the new book is inserted and the dialog closes. Loading ends false either way. |
| Curation.AddBookButton.SetOpen | components/admin/add-book-button.tsx:59 | The trigger and the cancel button set the dialog's open flag. |
| Curation.NewBook | components/admin/add-book-button.tsx:37-45 | The inserted book is always enabled. Title, author, category and URL are stored as given. An empty description or cover becomes null, and a non-empty one is stored as given. |
| Store.AddBook | components/admin/add-book-button.tsx:37 | The new row is stored under its id, and every other row is kept. |
| Curation.FieldsFromForm | components/admin/edit-book-dialog.tsx:51-58 | The six written columns: four copied, description and cover null when empty. |
| Curation.EditBookDialog.HandleSubmit | components/admin/edit-book-dialog.tsx:42-70 | On a store error: the message is shown, onClose is not called, and no book changes. On success: the six columns of the row with the book's id are replaced and onClose is called. Loading ends false. |
| Store.UpdateBook | components/admin/edit-book-dialog.tsx:49-59 | Only the row with that id changes. Its id, enabled and created_at are kept. Every other row is kept. |
| Store.WithFields | components/admin/edit-book-dialog.tsx:51-58 | The six form columns are replaced. id, enabled and created_at are untouched. |
| Curation.DefaultForm | components/admin/edit-book-dialog.tsx:88-116 | The edit form starts with the book's title, author, category and URL. Submitted as is, its description and cover come back as the book's, or null when they were null or empty. |
| Curation.BrowserAccepts | components/admin/add-book-button.tsx:80-108 | The browser submits only with title, author, category and book URL filled in, so the written columns for those four are non-empty. |
| Curation.UntouchedEditKeepsBook | components/admin/edit-book-dialog.tsx:49-59 | Saving the dialog with its default values writes a normalised book back unchanged. The null description or cover is shown as "" and stored back as null. |
| Curation.NewBookIsNormalised | components/admin/add-book-button.tsx:41-43 | A book from the add dialog never stores an empty description or cover. |
| Wrappers.NullIfEmpty | components/admin/add-book-button.tsx:41 | `value \|\| null`: null iff the form string is empty, else that string. |
| SearchParams.Get | components/books/books-search.tsx:25-26 | get(k) is null iff no pair is named k. |
| SearchParams.GetIsFirst | components/books/books-search.tsx:25-26 | A value get(k) returns belongs to the first pair named k. |
| SearchParams.NamedDecidesGet | components/books/books-search.tsx:25-26 | A name's pairs decide its count and what get returns, so keeping a name's pairs keeps how it reads. |
| SearchParams.Delete | components/books/books-search.tsx:34 | After delete(k) no pair is named k. Every other name keeps exactly its pairs, in order. Deleting an absent name changes nothing. |
| SearchParams.Set | components/books/books-search.tsx:36 | After set(k, v) exactly one pair is named k, with value v. Every other name keeps exactly its pairs, in order. Setting a settled name changes nothing. |
| SearchParams.Serialize | components/books/books-search.tsx:40 | The query string is empty iff there are no pairs. |
| CatalogSearch.CreateQueryString | components/books/books-search.tsx:28-43 | Each entry whose value is null, "" or "all" is removed. Every other entry is set to exactly its value. Names not in the record keep exactly their pairs, in order. The query is the serialisation. |
| CatalogSearch.ApplyAllIdempotent | components/books/books-search.tsx:28-43 | Applying the same record to createQueryString's own output gives the same parameter list. |
| CatalogSearch.ApplyAllSettles | components/books/books-search.tsx:32-38 | After the loop every entry's name is absent (when it clears) or present exactly once with its value. |
| CatalogSearch.ApplyAllKeepsOthers | components/books/books-search.tsx:30 | Names the record does not mention keep their count, their first value and all their pairs in order. |
| CatalogSearch.SettledIsFixed | components/books/books-search.tsx:32-38 | A list already settled for every entry is left exactly as it is. |
| CatalogSearch.BooksHref | components/books/books-search.tsx:48 | The URL is /books for an empty query, and /books? plus the query otherwise. |
| CatalogSearch.BareHrefIffNoParams | components/books/books-search.tsx:48-53 | The pushed URL is bare /books iff no parameter is left. |
| CatalogSearch.BooksSearch.constructor | components/books/books-search.tsx:25 | The box starts with the search parameter, or "". |
| CatalogSearch.BooksSearch.Category | components/books/books-search.tsx:26 | A non-empty category parameter is the selected category. An absent or empty one selects "all". The result is never empty. |
| CatalogSearch.BooksSearch.HasFilters | components/books/books-search.tsx:61 | Without filters the category select shows "all". |
| CatalogSearch.BooksSearch.SetSearch | components/books/books-search.tsx:71 | Typing sets the box's text. |
| CatalogSearch.BooksSearch.HandleSearch | components/books/books-search.tsx:45-49 | The pushed URL comes from the current parameters with search set to the box text, or removed when the text is "" or "all". Other parameters keep exactly their pairs. |
| CatalogSearch.BooksSearch.HandleCategoryChange | components/books/books-search.tsx:51-54 | "all" or "" removes the category, and any other value sets it. Other parameters keep exactly their pairs. |
| CatalogSearch.BooksSearch.ClearFilters | components/books/books-search.tsx:56-59 | The box is emptied and the URL is bare /books. |
| CatalogSearch.SearchingForAllDropsSearch | components/books/books-search.tsx:33-34 | A search for the word "all" removes the search parameter. |
| Sidebar.ActiveFlags | components/admin/sidebar.tsx:56-59 | Entry i is highlighted iff the path equals its href, or the href is not /admin and the path starts with it. |
| Sidebar.IsActive | components/admin/sidebar.tsx:58-59 | An entry is active on its own href. Whenever it is active, its href is a prefix of the path. |
| Sidebar.NavItemsShape | components/admin/sidebar.tsx:22-28 | Five entries with distinct hrefs, all starting with /admin, the first the dashboard. |
| Sidebar.DashboardOnlyOnItsOwnPath | components/admin/sidebar.tsx:58-59 | The dashboard is highlighted iff the path is exactly /admin. |
| Sidebar.OwnPathIsActive | components/admin/sidebar.tsx:58 | Every entry is highlighted on its own href. |
| Sidebar.SectionPrefixMatch | components/admin/sidebar.tsx:59 | /admin/books/xyz highlights Books and not the dashboard. The plain prefix also makes /admin/booksellers highlight Books. |
| Sidebar.SectionsDoNotNest | components/admin/sidebar.tsx:22-28 | No section href is a prefix of another entry's href. |
| Sidebar.AtMostOneActive | components/admin/sidebar.tsx:56-59 | On any path at most one entry is highlighted. |
| Dashboard.GetStats | app/admin/page.tsx:5-26 | The books figure counts every book, enabled or not. Users and downloads count all rows. Unread counts only messages with is_read false and never exceeds the messages. A query without an answer reads 0. |
| Dashboard.CountReply | app/admin/page.tsx:14-17 | A count query answers the exact row count, or null. |
| Dashboard.OrZero | app/admin/page.tsx:21-24 | `count \|\| 0`: a missing count is 0. |
| Store.UnreadIds | app/admin/page.tsx:17 | The unread ids are exactly the stored messages with is_read false. |
| Dashboard.UnreadAtMostAll | app/admin/page.tsx:24 | The unread figure never exceeds the number of messages. |
| Dashboard.BooksStatIgnoresEnabled | app/admin/page.tsx:14 | Enabling or disabling a book leaves every figure unchanged. |
| Dashboard.MarkReadLowersUnread | app/admin/page.tsx:17 | Reading an unread message removes exactly that id from the unread set, lowering the figure by one. Reading a read or missing one changes nothing. |
| Dashboard.Joins | app/admin/page.tsx:35-36 | `!inner` on both relations: a download without its profile or without its book does not join. |
| Dashboard.RowOf | app/admin/page.tsx:32-37 | A joined row carries the download's id and time, the profile's name and email, and the book's title. |
| Dashboard.Joined | app/admin/page.tsx:32-37 | Inner join: every download whose profile and book both exist gives a row, and every row comes from such a download. |
| Dashboard.RecentDownloads | app/admin/page.tsx:28-42 | Exactly min(5, joined rows) rows, newest first, all from the join. With 5 or fewer joined rows it is all of them. No left-out joined row is newer than a kept one. Null data gives []. |
| Ordering.SortNewestFirst | app/admin/page.tsx:38 | order(downloaded_at desc): a permutation of the rows, newest first. |
| Ordering.Limit | app/admin/page.tsx:39 | limit(n): the first min(n, length) rows, exactly that many. |
| Ordering.LimitKeepsNewest | app/admin/page.tsx:38-39 | Limiting a newest-first list keeps it ordered, and nothing cut off is newer than what is kept. |
| UsersPage.DisplayedRole | app/admin/users/page.tsx:58 | The first role row's role. It is "user" when there is no array, no row or an empty role, and it is never empty. |
| UsersPage.BadgeFor | app/admin/users/page.tsx:68 | The badge is "default" iff the role is "admin". |
| UsersPage.Line | app/admin/users/page.tsx:57-71 | A missing or empty name or phone shows "—". The email is shown as stored. The role and badge follow DisplayedRole and BadgeFor. |
| UsersPage.ListedRoleIsResolvedRole | app/admin/users/page.tsx:58-68 | The role listed for a profile is the role getUserRole resolves for that user, and the admin badge shows iff that user is admin. |
| UsersPage.RolesOf | app/admin/users/page.tsx:23 | The user_roles embedding is always an array, with at most one row. It has a row iff the profile has a stored role, and that row is the stored role. |
| UsersPage.JoinRoles | app/admin/users/page.tsx:17-24 | Each profile is paired with its role rows, in order. |
| UsersPage.GetUsers | app/admin/users/page.tsx:13-28 | The profile rows the query returns (passed in as a list), each paired with its roles: a permutation of them, newest first by created_at. Null data gives []. |
| UsersPage.UsersTable | app/admin/users/page.tsx:57-77 | One line per row, in the given order. |
| Store.Database.InsertDownload | components/books/book-details.tsx:43-46 | Appends one record to downloads and leaves every other table unchanged. |
| Store.Database.UpdateMessageRead | components/admin/messages-table.tsx:57-60 | Applies MarkRead to messages only. |
| Store.Database.UpdateBookEnabled | components/admin/books-table.tsx:70 | Applies SetEnabled to books only. |
| Store.Database.DeleteBook | components/admin/books-table.tsx:62 | Applies RemoveBook to books only. |
| Store.Database.InsertBook | components/admin/add-book-button.tsx:37-45 | Applies AddBook to books only. |
| Store.Database.UpdateBookFields | components/admin/edit-book-dialog.tsx:49-59 | Applies UpdateBook to books only. |

## Left out

- Markup, styling, icons, dialogs as widgets, `router.refresh`, and date formatting (`toLocaleDateString`, `toLocaleString`) are not modelled.
- The hosted store client (`createClient`), `auth.getUser` and sign-out (components/admin/sidebar.tsx:35-39) are not modelled. The caller is a parameter of every operation that looks at it, and the sign-out handler is left out.
- `window.open`, the iframe reader and `mailto:` links are not modelled. Opening a URL is a returned value.
- Percent-encoding in URLSearchParams `toString` is not modelled. Pairs serialise as `name=value` joined by `&`.
- The browser's `type="url"` syntax check on the book and cover URLs is not modelled. Curation.BrowserAccepts only requires the four `required` inputs to be non-empty.
- Store failures of the message, toggle and delete writes are not modelled. Their replies are never inspected, so a failed write only leaves the table unchanged.
- Row-level security and store-side constraints are not part of this model. Nothing in the shown handlers checks the admin role before a curation write; only the layout guard does.
- The catalog listing that hides disabled books lives in app/(portal)/books/page.tsx. That file is not part of this model.
- At most one role row per user is an assumption of this model (`roles` is a map). The only sign of it in the code is the `.single()` lookup at lib/auth.ts:19. With several rows, `.single()` would resolve "user" while the users list shows the first row; that case is not modelled.
- The two `Promise.all` calls (app/admin/page.tsx:13 and 45) only run independent reads together. They are modelled as sequential reads.
- Store.Database.InsertBook: the store's choice of a fresh id is a precondition (`b.id !in books`) rather than a generator.
- BookAccess.BookDetails.HandleDownload: `downloading` is true only between the two assignments inside the handler. The contract states only its final value.
- Ordering.SortNewestFirst: rows with equal timestamps may come back in any order from the store. The model fixes one order; every stated property holds for any order of ties.
