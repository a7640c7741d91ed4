# Cinema client logic in Dafny

This project models the client-side logic of a cinema web client. The client is a React single-page app that talks to a cinema REST server. The server decides pricing, reservation and expiry. The client holds a modest layer of logic of its own:

- the seat map and the seat selection with its 30-minute countdown;
- the auth store with its user extraction and retry rule;
- the route guards and the admin path store-and-restore;
- the list unwraps repeated across pages;
- ticket filtering and ticket cards;
- the home page's genre and year lists;
- the admin forms for halls, movies and sessions, with their JavaScript truthiness;
- the description truncation and links of movie cards.

The code is written as pure functions wherever the source computes a value: datatypes, functions and lemmas. State that the source changes step by step is a class with methods:

- `SeatSelection.SeatSelectionPage` holds the selected seats and the time left.
- `AuthContext.AuthStore` holds the token, the cached user data, the user and the loading flag.
- `HomePage.HomeState` holds the filters and the current page.
- `MovieDetails.MovieDetailsState` holds the selected date.
- `AdminLayout.AdminPathStore` holds the stored last admin path.

Shared modules:

- `Wrappers`: an `Option` type.
- `JsText`: the JavaScript semantics the pages rely on. This covers truthiness of optional numbers and strings, `String(n)`, `Math.floor`, `%`, `padStart`, `split` and first-occurrence `replace`.
- `Collections`: `filter`, `Array.from(new Set(..))`, a descending numeric sort and `find` over key/value pairs.
- `CinemaTypes`: the server records and the seat lookups.
- `ApiShapes`: the paginated-or-plain list payload and the create-or-update mutation.
- `Arithmetic`: division facts used by the proofs.

Conventions:

- Numbers are unbounded integers.
- A field the server or a form may leave empty is an `Option`.
- A value that JavaScript reads as a boolean goes through `TruthyInt`/`TruthyString`. For example, `0` and `""` count as missing.
- The network, timers, the date library and antd's e-mail check are parameters of the operations that use them.

## Model

| member | source | states |
|---|---|---|
| ApiShapes.UnwrapList | src/pages/admin/HallsPage.tsx:75-81 | a non-empty result is exactly the plain array or the inner list of a paginated object |
| ApiShapes.UnwrapBothFormats | src/pages/admin/HallsPage.tsx:75-81 | a plain array and a paginated object's inner list both come back unchanged |
| ApiShapes.UnwrapFallbacks | src/pages/admin/HallsPage.tsx:75-81 | no data, a falsy inner list, or any other value all give the empty list |
| ApiShapes.SubmitMutation | src/pages/admin/HallsPage.tsx:154-158 | an update of the edited id exactly when one is being edited, otherwise a create, always carrying the form values |
| SeatSelection.DecodeSeat | src/pages/SeatSelectionPage.tsx:52-67 | a server seat keeps row and seat and is available iff `is_available`, otherwise sold, never reserved; a seat already in map shape passes through |
| SeatSelection.DecodeSeats | src/pages/SeatSelectionPage.tsx:44-75 | a `seats` array of objects decodes element by element with length and order kept; an element that is not an object makes the `in` test throw and the result []; every other payload gives [] |
| SeatSelection.DecodedServerSeatsNeverReserved | src/pages/SeatSelectionPage.tsx:55-62 | no decoded server seat is reserved |
| SeatSelection.Toggle | src/pages/SeatSelectionPage.tsx:116-122 | an unselected seat is appended as available; a selected one is removed at its first index, the rest in order |
| SeatSelection.ToggleFlipsOnlyTheClickedSeat | src/pages/SeatSelectionPage.tsx:116-122 | after a click the clicked position's selectedness is flipped and every other position's is unchanged |
| SeatSelection.ToggleKeepsWellFormed | src/pages/SeatSelectionPage.tsx:116-122 | the selection stays free seats with no position twice |
| SeatSelection.ToggleTwiceRestores | src/pages/SeatSelectionPage.tsx:116-122 | clicking an unselected seat twice restores the selection exactly |
| SeatSelection.ToggleTwiceMovesToEnd | src/pages/SeatSelectionPage.tsx:116-122 | clicking a selected seat twice keeps the same seats but moves that seat to the end |
| SeatSelection.NextTimeLeft | src/pages/SeatSelectionPage.tsx:94-101 | one second less while positive, 0 otherwise, never negative |
| SeatSelection.TimeAfterTicksIs | src/pages/SeatSelectionPage.tsx:91-107 | k ticks from t leave max(t - k, 0) |
| SeatSelection.ReservationWindowLength | src/pages/SeatSelectionPage.tsx:12 | time is left for the first 1800 ticks and runs out at tick 1800 |
| SeatSelection.TotalPrice | src/pages/SeatSelectionPage.tsx:150 | a truthy price gives the number of selected seats times the price; a falsy one gives 0 |
| SeatSelection.TotalPriceFollowsToggle | src/pages/SeatSelectionPage.tsx:150 | a click adds the price for an appended seat and subtracts it for a removed one |
| SeatSelection.FormatTimeRoundTrip | src/pages/SeatSelectionPage.tsx:152-156 | the `m:ss` text reads back as minutes × 60 + two-digit seconds, giving the same number of seconds |
| SeatSelection.FormatTime | src/pages/SeatSelectionPage.tsx:152-156 | at least four characters: minutes, a colon and two-digit seconds (read back by FormatTimeRoundTrip) |
| SeatSelection.SeatSelectionPage.constructor | src/pages/SeatSelectionPage.tsx:23-24 | empty selection and 1800 seconds |
| SeatSelection.SeatSelectionPage.SelectSeat | src/pages/SeatSelectionPage.tsx:109-123 | a seat listed as not available is refused with the selection unchanged; otherwise the selection is toggled; time untouched; invariant kept |
| SeatSelection.SeatSelectionPage.Tick | src/pages/SeatSelectionPage.tsx:91-107 | nothing happens with an empty selection; otherwise time follows NextTimeLeft and a tick at 0 clears the selection; time never grows |
| SeatSelection.SeatSelectionPage.ReserveRequests | src/pages/SeatSelectionPage.tsx:125-131 | nothing is sent for an empty selection, otherwise one (row, seat) request per selected seat in order |
| SeatSelection.SeatSelectionPage.ReserveDisabled | src/pages/SeatSelectionPage.tsx:218 | the button is disabled iff no request would be sent or no time is left |
| HallLayout.SeatAvailability | src/components/hall/HallLayout.tsx:21-24 | true iff the first entry at the position is available; false without an entry |
| HallLayout.IsSeatSelected | src/components/hall/HallLayout.tsx:26-28 | true iff some selected entry has that row and seat |
| HallLayout.OneTo | src/components/hall/HallLayout.tsx:31 | the numbers 1..n in increasing order |
| HallLayout.OneToCovers | src/components/hall/HallLayout.tsx:68 | every row number 1..rows is rendered |
| HallLayout.LayoutCells | src/components/hall/HallLayout.tsx:30-68 | rows × seats_per_row cells |
| HallLayout.LayoutCellsRowMajor | src/components/hall/HallLayout.tsx:30-68 | cell k is (k div seats_per_row + 1, k mod seats_per_row + 1) |
| HallLayout.CellKeysDistinct | src/components/hall/HallLayout.tsx:41 | keys `row-seat` of non-negative positions are equal only for equal positions |
| HallLayout.CellKey | src/components/hall/HallLayout.tsx:41 | for a non-negative row the key starts with the row's digits, which hold no '-', followed by '-' |
| HallLayout.CellProps | src/components/hall/HallLayout.tsx:40-47 | the button gets the position and selectedness but no status (as written) |
| HallLayout.EveryCellIsEnabled | src/components/hall/HallLayout.tsx:44 | as written, every cell is an enabled default button whose click selects it |
| HallLayout.SoldSeatCellIsClickable | src/components/hall/HallLayout.tsx:44 | as written, a sold seat 1/1 renders clickable and not red |
| HallLayout.CellPropsIntended | src/components/hall/HallLayout.tsx:40-47 | the button gets the status of the first entry at the position |
| HallLayout.IntendedCellReflectsStatus | src/components/hall/HallLayout.tsx:40-47 | with the status passed, a cell is disabled iff its entry is sold or reserved, clickable iff enabled, primary iff available and selected |
| SeatButton.GetButtonProps | src/components/hall/Seat.tsx:37-62 | primary iff available and selected; danger iff sold; red style for sold, amber for reserved, none otherwise |
| SeatButton.OnClick | src/components/hall/Seat.tsx:72 | the click calls back with (row, seat) exactly when not disabled |
| SeatButton.IsDisabled | src/components/hall/Seat.tsx:65 | disabled iff a status is given and it is not available; no status means enabled |
| SeatButton.Render | src/components/hall/Seat.tsx:64-83 | disabled iff sold or reserved; clickable iff enabled; the caption is the seat number |
| SeatButton.ButtonStatesConsistent | src/components/hall/Seat.tsx:37-72 | a danger button is disabled and default; a primary button is enabled |
| HallsPage.SessionsByHall | src/pages/admin/HallsPage.tsx:93-95 | exactly the sessions whose embedded hall has that id |
| HallsPage.SessionsByHallKeepsOrder | src/pages/admin/HallsPage.tsx:93-95 | filtering commutes with concatenation, so the original order is kept |
| HallsPage.SessionsByHallDisjoint | src/pages/admin/HallsPage.tsx:93-95 | no session is listed under two halls; one without a hall is listed under none |
| HallsPage.PreviewDecode | src/pages/admin/HallsPage.tsx:227-248 | row and seat copied; available iff `is_available`; reserved iff unavailable and (row + seat) mod 3 = 0 |
| HallsPage.DefaultGrid | src/pages/admin/HallsPage.tsx:253-257 | rows × seats_per_row entries, all available |
| HallsPage.TotalSeatsMatchesGrid | src/pages/admin/HallsPage.tsx:183 | the total-seats column equals the grid's and the seat map's cell counts |
| HallsPage.TotalSeats | src/pages/admin/HallsPage.tsx:183 | never negative for a hall of non-negative size, and 0 when there are no rows or no seats per row |
| HallsPage.DefaultGridRowMajor | src/pages/admin/HallsPage.tsx:253-257 | entry i is (i div spr + 1, i mod spr + 1), inside the hall, and matches the seat map's cell i |
| HallsPage.DefaultGridCoversEachCellOnce | src/pages/admin/HallsPage.tsx:253-257 | every (r, s) of the hall appears, at exactly one index |
| HallsPage.GridIndexDeterminedByCell | src/pages/admin/HallsPage.tsx:253-257 | an entry's index is determined by its row and seat |
| HallsPage.PreviewSeats | src/pages/admin/HallsPage.tsx:219-258 | the default grid unless a session of this hall is chosen; then the decoded seats, or [] without a `seats` field |
| HallsPage.OccupancyPartitions | src/pages/admin/HallsPage.tsx:299-301 | free, reserved and sold counts sum to the number of seats |
| HallsPage.Occupancy | src/pages/admin/HallsPage.tsx:299-301 | each of the free, reserved and sold counts is at most the number of seats |
| HallsPage.DefaultPreviewIsAllFree | src/pages/admin/HallsPage.tsx:252-291 | without a chosen session the seat map receives the default grid, so every seat of the hall shows as available |
| HallsPage.HallFormErrors | src/pages/admin/HallsPage.tsx:348-376 | no message iff a name is given and rows ≥ 1 and seats per row ≥ 1 |
| HallsPage.HallSubmit | src/pages/admin/HallsPage.tsx:151-162 | a mutation iff the form is valid; an update of the edited hall, else a create |
| HallsPage.AcceptedHallHasSeats | src/pages/admin/HallsPage.tsx:356-376 | an accepted hall has at least one seat and a non-empty grid |
| AuthContext.ExtractUser | src/contexts/AuthContext.tsx:91-106 | a `data` object is the only source when present; else `user`; else the response itself; only complete objects yield a user |
| AuthContext.IncompleteDataHidesUser | src/contexts/AuthContext.tsx:92-97 | an incomplete `data` object gives no user even beside a valid `user` |
| AuthContext.BareUserResponse | src/contexts/AuthContext.tsx:102-105 | a response that is itself a user yields it |
| AuthContext.FinalAttempt | src/contexts/AuthContext.tsx:117-142 | attempts stop at the first non-retryable outcome or at maxRetries; all earlier ones were retryable |
| AuthContext.AttemptsBounded | src/contexts/AuthContext.tsx:135-141 | at most maxRetries + 1 requests, 3 by default |
| AuthContext.UnauthorizedNotRetried | src/contexts/AuthContext.tsx:121-133 | a 401 ends the attempts at once |
| AuthContext.RetryDelay | src/contexts/AuthContext.tsx:136-139 | at least one second |
| AuthContext.RetryDelaysGrow | src/contexts/AuthContext.tsx:136-139 | 1 s, then 2 s, each retry waits one second longer |
| AuthContext.AfterMe | src/contexts/AuthContext.tsx:108-133 | an extracted user is stored and cached; no user or a 401 removes token and cached data; other errors change nothing |
| AuthContext.AfterMeNeverInventsToken | src/contexts/AuthContext.tsx:108-133 | a token after the call is the one before; a changed user is cached |
| AuthContext.AuthStore.constructor | src/contexts/AuthContext.tsx:23-25 | the stored token and cache, no user, loading |
| AuthContext.AuthStore.UpdateUser | src/contexts/AuthContext.tsx:30-39 | sets the user and caches it, or removes the cache for none |
| AuthContext.AuthStore.FetchUserDataFromApi | src/contexts/AuthContext.tsx:79-146 | makes FinalAttempt - retryCount + 1 requests and ends in AfterMe of the last outcome |
| AuthContext.AuthStore.FetchUserData | src/contexts/AuthContext.tsx:42-76 | no token: no request and nothing changes; a parsable cache is shown at once; an unparsable one is dropped; loading ends false |
| AuthContext.AuthStore.SignIn | src/contexts/AuthContext.tsx:152-186 | success stores the access token and, when present, the user; failure changes nothing |
| AuthContext.AuthStore.Logout | src/contexts/AuthContext.tsx:188-198 | token, cache and user are all cleared |
| ProtectedRoute.Guard | src/components/common/ProtectedRoute.tsx:11-39 | loading first; no user and no token redirects to login with the location; a token without user keeps loading; a non-admin on an admin route goes home; children iff not loading, a user, and admin when required |
| ProtectedRoute.LoginRedirectOnlyWhenSignedOut | src/components/common/ProtectedRoute.tsx:22-25 | a login redirect iff not loading, no user and no token |
| ProtectedRoute.AdminGuardIsStricter | src/components/common/ProtectedRoute.tsx:33-38 | what the admin guard renders the plain guard renders too, and they differ only by sending a non-admin home |
| Navigation.MenuKeys | src/components/common/Navigation.tsx:30-54 | '/' first; '/profile' iff signed in; '/admin' iff admin and after '/profile' |
| Navigation.Buttons | src/components/common/Navigation.tsx:66-94 | a logout button iff signed in, else login and register |
| Navigation.AdminItemMatchesGuard | src/components/common/Navigation.tsx:43-51 | the admin item shows iff the admin guard would render its children once loaded |
| Navigation.ProfileItemMatchesGuard | src/components/common/Navigation.tsx:36-42 | the profile item shows iff the signed-in guard would render its children once loaded |
| AppRoutes.AdminChild | src/App.tsx:129-134 | the admin children are movies, halls, sessions, users and statistics |
| AppRoutes.Resolve | src/App.tsx:77-139 | a redirect to / exactly when no route pattern matches; /, /login, /register, /profile, /movies/:id and /sessions/:id/seats open their pages with the parameter taken from the path; admin pages only under /admin |
| AppRoutes.PathSegments | src/App.tsx:77-139 | the path's segments as the router matches them: none empty and none containing '/' |
| AppRoutes.AdminRootSegments | src/App.tsx:121 | /admin is the single segment admin |
| AppRoutes.AdminChildSegments | src/App.tsx:129-134 | /admin/x for a plain name x is the segments admin, x |
| AppRoutes.ResolveAdminChild | src/App.tsx:121-135 | every child path /admin/x resolves to the admin page of x |
| AppRoutes.TwoSegmentPath | src/App.tsx:92-100 | a path /a/b of two plain names is the segments a, b |
| AppRoutes.ProtectionOf | src/App.tsx:99-128 | seat selection and profile need a user; the admin area needs an admin |
| AppRoutes.GuardedPathsNeedSignIn | src/App.tsx:99-118 | the paths /sessions/:id/seats and /profile resolve to pages behind the sign-in guard; /movies/:id is public |
| AppRoutes.AdminChildrenExactly | src/App.tsx:121-135 | /admin is the dashboard and /admin/x is an admin page exactly for the five children, else a redirect |
| AppRoutes.UnknownPathRedirects | src/App.tsx:138 | a path with an unknown first segment redirects to / |
| AppRoutes.AdminRoutesView | src/App.tsx:64-68 | a non-admin is sent home, an admin sees the layout |
| AppRoutes.RestoreTarget | src/App.tsx:55-61 | a restore exactly at /admin for an admin with a non-empty stored path other than /admin, to that path |
| AppRoutes.GuardedAdminRoutesShowLayout | src/App.tsx:121-128 | behind the admin guard the layout always shows |
| AdminLayout.HeaderTitle | src/layouts/AdminLayout.tsx:127 | the label of the menu item whose key is the pathname, else the fallback title |
| AdminLayout.StatisticsHasFallbackTitle | src/layouts/AdminLayout.tsx:44-48 | the path /admin/statistics resolves to the statistics page but is titled with the fallback |
| AdminLayout.MenuKeysAreAdminRoutes | src/layouts/AdminLayout.tsx:18-49 | each key of the side menu (`MenuItems`), split as the router splits it, resolves to the admin page of that item |
| AdminLayout.CommitAsWritten | src/layouts/AdminLayout.tsx:57-59 | as written, the path is stored before the restore reads it |
| AdminLayout.AsWrittenNeverRestores | src/layouts/AdminLayout.tsx:57-59 | as written, no render ever restores |
| AdminLayout.AsWrittenLosesMoviesPage | src/layouts/AdminLayout.tsx:57-59 | the concrete case: an admin back at /admin after /admin/movies stays there although the restore rule asks for /admin/movies |
| AdminLayout.AdminPathStore.constructor | src/layouts/AdminLayout.tsx:57-59 | starts from the stored path |
| AdminLayout.AdminPathStore.PathChanged | src/layouts/AdminLayout.tsx:57-59 | every pathname change stores the pathname |
| AdminLayout.AdminPathStore.MenuClick | src/layouts/AdminLayout.tsx:61-63 | navigates to the clicked key, which is then stored |
| AdminLayout.AdminPathStore.CommitAdminRender | src/App.tsx:55-61 | the restore reads the stored path first and the page then stores where it ends up |
| AdminLayout.RestoreReturnsToLastPage | src/App.tsx:55-61 | an admin at /admin is returned to any other stored page, never to /admin itself |
| RegisterForm.LengthErrors | src/components/auth/RegisterForm.tsx:42-82 | no message iff the value is present, non-empty and long enough; at most one message |
| RegisterForm.NameErrors | src/components/auth/RegisterForm.tsx:44-47 | name required and at least 2 characters |
| RegisterForm.PasswordErrors | src/components/auth/RegisterForm.tsx:72-75 | password required and at least 6 characters |
| RegisterForm.EmailErrors | src/components/auth/RegisterForm.tsx:58-61 | e-mail required and accepted by the e-mail check |
| RegisterForm.ConfirmationErrors | src/components/auth/RegisterForm.tsx:84-97 | no message iff the confirmation is non-empty and equals the password |
| RegisterForm.ConfirmationValidatorMeaning | src/components/auth/RegisterForm.tsx:89-96 | the validator accepts iff the value is empty or equals the password |
| RegisterForm.SubmittedFormIsConsistent | src/components/auth/RegisterForm.tsx:42-104 | a form without messages has a long enough name and password, a valid e-mail and a matching confirmation |
| RegisterForm.FailureMessage | src/components/auth/RegisterForm.tsx:24-30 | an Error shows its message, anything else the fixed text |
| TicketCard.GetStatusTag | src/components/tickets/TicketCard.tsx:16-45 | the four statuses map to their texts and colours; anything else gives no tag |
| TicketCard.StatusTagsDistinct | src/components/tickets/TicketCard.tsx:16-45 | different statuses never share a tag |
| TicketCard.Render | src/components/tickets/TicketCard.tsx:57-100 | actions iff reserved; the reserved-until line iff present and reserved; the paid-at line iff present |
| TicketCard.ActionsOnlyOnReservedTag | src/components/tickets/TicketCard.tsx:76-92 | actions come with the reserved tag; the reserved-until line comes with the actions |
| TicketCard.Click | src/components/tickets/TicketCard.tsx:78-81 | a handler is called with the ticket id, nothing without a handler |
| ProfilePage.TicketsList | src/pages/ProfilePage.tsx:22-30 | the shared unwrap |
| ProfilePage.FilteredTickets | src/pages/ProfilePage.tsx:62 | exactly the tickets whose status is the active tab |
| ProfilePage.FilteredTicketsKeepOrder | src/pages/ProfilePage.tsx:62 | original order kept |
| ProfilePage.ExpiredNeverListed | src/pages/ProfilePage.tsx:83-99 | with only the three tabs, an expired ticket is never shown |
| ProfilePage.TabsAreTicketStatuses | src/pages/ProfilePage.tsx:83-99 | the page opens (line 13) on the first tab, `reserved`; each tab key (`TabKeys`) is a status the card has a tag for; there is no expired tab |
| ProfilePage.TabHandlers | src/pages/ProfilePage.tsx:75-76 | pay and cancel handlers only on the reserved tab |
| ProfilePage.HandlerUpdate | src/pages/ProfilePage.tsx:32-44 | pay requests 'paid', cancel 'cancelled', for the clicked ticket |
| ProfilePage.PayAndCancelOnlyForReservedTickets | src/pages/ProfilePage.tsx:62-76 | on a listed ticket the pay and cancel buttons show iff the tab is 'reserved', and pressing them asks to mark that ticket 'paid' or 'cancelled' |
| HomePage.Genres | src/pages/HomePage.tsx:28 | each genre of the response once and nothing else |
| HomePage.GenresInFirstAppearanceOrder | src/pages/HomePage.tsx:28 | genres are ordered by first appearance |
| HomePage.Years | src/pages/HomePage.tsx:29-30 | strictly descending, exactly the release years of the response |
| HomePage.PaginationMeansSeveralPages | src/pages/HomePage.tsx:70 | pagination shows iff total > 12, i.e. iff there are at least two pages |
| HomePage.PageCount | src/pages/HomePage.tsx:72-76 | the smallest number of 12-movie pages that holds `total` movies |
| HomePage.ShowPagination | src/pages/HomePage.tsx:70 | shown iff a total is given and it needs at least two pages |
| HomePage.EmptyNoticeMeansNoChoices | src/pages/HomePage.tsx:82-84 | when the empty notice shows there are no genres or years to offer |
| HomePage.ShowEmptyNotice | src/pages/HomePage.tsx:82-84 | shown iff a response came and it offers no genre, i.e. its list is empty; then there are no genre or year values either |
| HomePage.HomeState.constructor | src/pages/HomePage.tsx:13-20 | no filters, page 1 |
| HomePage.HomeState.HandleFilter | src/pages/HomePage.tsx:32-35 | filters replaced and page reset to 1 |
| HomePage.HomeState.HandlePageChange | src/pages/HomePage.tsx:37-39 | page set, filters kept |
| HomePage.HomeState.QueryKey | src/pages/HomePage.tsx:22-25 | the movie query is keyed by the filter values and the current page |
| MovieCard.ShortDescription | src/components/movies/MovieCard.tsx:36-38 | up to 100 characters unchanged; longer ones cut to 100 plus "..."; never over 103; always starts with the description's first min(100, length) characters |
| MovieCard.ShortDescriptionIdempotent | src/components/movies/MovieCard.tsx:36-38 | shortening a shown text again changes nothing |
| MovieCard.PosterSrc | src/components/movies/MovieCard.tsx:20 | the poster URL, or the placeholder when it is empty; never empty |
| MovieCard.MovieLinkOpensDetails | src/components/movies/MovieCard.tsx:13 | the card's link resolves to the details page of that movie id |
| MovieCard.MovieLink | src/components/movies/MovieCard.tsx:13 | `/movies/` followed by the id's text, which holds no '/' |
| MovieDetails.DateKeys | src/pages/MovieDetailsPage.tsx:48 | the date buttons are the keys in order |
| MovieDetails.SettledDate | src/pages/MovieDetailsPage.tsx:24-31 | the first key only when there are keys and no date is selected |
| MovieDetails.SessionsShown | src/pages/MovieDetailsPage.tsx:49 | [] without a date, otherwise the sessions under that key (absent for an unknown key) |
| MovieDetails.AsWrittenNoSessionsAfterLoad | src/pages/MovieDetailsPage.tsx:19-49 | as written, no date is chosen after load, so no sessions are shown although the first date has some |
| MovieDetails.FirstDateShownAfterLoad | src/pages/MovieDetailsPage.tsx:24-49 | intended: once `onSettled` has chosen the first date, that date's sessions are shown |
| MovieDetails.PickedDateHasSessions | src/pages/MovieDetailsPage.tsx:48-49 | picking any date button shows its sessions |
| MovieDetails.MovieDetailsState.constructor | src/pages/MovieDetailsPage.tsx:19 | no date selected |
| MovieDetails.MovieDetailsState.SelectDate | src/pages/MovieDetailsPage.tsx:81-85 | the picked date becomes selected |
| MovieDetails.MovieDetailsState.Settled | src/pages/MovieDetailsPage.tsx:24-31 | the selection follows SettledDate |
| MoviesAdmin.MoviesList | src/pages/admin/MoviesPage.tsx:49-55 | the shared unwrap |
| MoviesAdmin.Duration | src/pages/admin/MoviesPage.tsx:172-173 | duration_minutes if truthy, else duration if truthy, else 0 |
| MoviesAdmin.DurationText | src/pages/admin/MoviesPage.tsx:172-173 | the text of the fallback duration followed by " мин." |
| MoviesAdmin.ZeroDurationFallsBack | src/pages/admin/MoviesPage.tsx:112 | a duration_minutes of 0 counts as missing |
| MoviesAdmin.RatingText | src/pages/admin/MoviesPage.tsx:179 | "r/10" for a truthy rating, otherwise "Нет оценки" |
| MoviesAdmin.RatingTextDistinguishesZero | src/pages/admin/MoviesPage.tsx:179 | rating 0 reads like no rating; any other rating does not |
| MoviesAdmin.StatusTag | src/pages/admin/MoviesPage.tsx:185-188 | 'Активен' in green iff active, else 'Неактивен' in red |
| MoviesAdmin.SelectableYears | src/pages/admin/MoviesPage.tsx:292-294 | a year is selectable iff 1900 ≤ year ≤ current + 5 |
| MoviesAdmin.YearDisabled | src/pages/admin/MoviesPage.tsx:292-294 | no value disables nothing; a year from 1900 to the current year + 5 is enabled |
| MoviesAdmin.EditForm | src/pages/admin/MoviesPage.tsx:107-119 | the movie's fields as received, its director included, the duration fallback, and a year only for a truthy release year |
| MoviesAdmin.FormErrors | src/pages/admin/MoviesPage.tsx:251-319 | no message iff title, description, director, genre, year, duration and poster are all given |
| MoviesAdmin.NewMovieFormIsIncomplete | src/pages/admin/MoviesPage.tsx:249-319 | a new movie form starts with `is_active` on and, saved untouched, raises all seven required messages and sends nothing |
| MoviesAdmin.Payload | src/pages/admin/MoviesPage.tsx:126-135 | release_year is the picked year or absent; the picked date itself is not sent; the other fields pass through |
| MoviesAdmin.MovieSubmit | src/pages/admin/MoviesPage.tsx:122-145 | a mutation iff valid; update when editing, else create |
| MoviesAdmin.EditThenSubmit | src/pages/admin/MoviesPage.tsx:107-141 | editing a complete movie and saving it untouched sends it back with its director, year and the fallback duration |
| MoviesAdmin.ZeroYearBlocksSave | src/pages/admin/MoviesPage.tsx:113 | a movie with release year 0 cannot be saved until a year is picked; the year message shows |
| MoviesAdmin.MissingDirectorBlocksSave | src/pages/admin/MoviesPage.tsx:267-273 | a record without a director opens with an empty director field and cannot be saved until one is typed in |
| SessionsAdmin.SessionsList | src/pages/admin/SessionsPage.tsx:127-135 | the shared unwrap |
| SessionsAdmin.FormatPrice | src/pages/admin/SessionsPage.tsx:303 | the value followed by " ₽" |
| SessionsAdmin.ParsePrice | src/pages/admin/SessionsPage.tsx:304 | a text without " ₽" is unchanged |
| SessionsAdmin.ParseFormattedPrice | src/pages/admin/SessionsPage.tsx:303-304 | parser(formatter(v)) = v for every v not containing " ₽" |
| SessionsAdmin.ParseFormattedNumber | src/pages/admin/SessionsPage.tsx:303-304 | a number's text reads back unchanged |
| SessionsAdmin.PriceColumn | src/pages/admin/SessionsPage.tsx:186 | the formatted price, or "undefined ₽" without one |
| SessionsAdmin.EditStartTimeOneSpace | src/pages/admin/SessionsPage.tsx:96-99 | with exactly one space the space becomes 'T' |
| SessionsAdmin.EditStartTimeNoSpace | src/pages/admin/SessionsPage.tsx:96-99 | without a space the time part reads "undefined" |
| SessionsAdmin.EditStartTime | src/pages/admin/SessionsPage.tsx:96-99 | a start time without a space gets "Tundefined" appended (the one-space case is EditStartTimeOneSpace) |
| SessionsAdmin.EditForm | src/pages/admin/SessionsPage.tsx:94-102 | the session's movie, hall and price, and the rewritten start time |
| SessionsAdmin.FormErrors | src/pages/admin/SessionsPage.tsx:247-306 | no message iff every field is given and the price is ≥ 0; the negative-price message iff a price below 0 |
| SessionsAdmin.SessionSubmit | src/pages/admin/SessionsPage.tsx:108-124 | a mutation iff valid, with the start time formatted and the rest passed through; update when editing, else create |
| SessionsAdmin.EditThenSubmit | src/pages/admin/SessionsPage.tsx:94-124 | editing and saving sends the session back unchanged when the date library round-trips the start time |
| SessionsAdmin.MissingPriceBlocksSave | src/pages/admin/SessionsPage.tsx:293-299 | a session without a price cannot be saved, and only the price message shows |

## Left out

- Network calls, React Query caching and invalidation, toasts and loading spinners are not modelled. Request results enter as parameters, such as the seat payload, the `/me` outcomes and the sign-in outcome.
- The reservation requests are not modelled as network calls. `ReserveRequests` states which requests are made; their parallel `Promise.all` and its partial failures are not modelled.
- `AuthContext.AuthStore.FetchUserDataFromApi`: the `isRefreshing` guard and the real timer scheduling are not modelled. Retries are a counter and `RetryDelay` is only a number. The background refresh after a cached user is modelled as finishing before the next event.
- `AuthContext.AuthStore.FetchUserData`: `JSON.parse` of the cache is modelled as either a user or unparsable. A parsable non-user value is not modelled.
- `AuthContext.AfterMe`: when no user can be extracted, or on a 401, the token and cache are removed but the in-memory `user` is kept, as in the source. The empty token `""` is falsy here, whereas `ProtectedRoute` tests only presence.
- `MovieDetails.MovieDetailsState.Settled` models the intended `onSettled` callback (src/pages/MovieDetailsPage.tsx:24-31). The pages read `mutation.isPending` (src/pages/SeatSelectionPage.tsx:217, src/pages/admin/MoviesPage.tsx:244, src/pages/admin/SessionsPage.tsx:241, src/pages/admin/HallsPage.tsx:342, src/pages/admin/UsersPage.tsx:157), which exists only in version 5 of TanStack Query, and version 5 never calls a query's `onSettled`. As written the date is therefore never set on load; see Findings.
- Object key order is the order of the `grouped_sessions` pairs. JavaScript's integer-keys-first ordering is not modelled.
- `AppRoutes.Resolve`: route matching is exact and case-sensitive. The router's case-insensitive matching is not modelled.
- `HomePage.Years`: the comparator `b - a` is modelled on integers. Release years are plain integers with no `NaN`.
- `MoviesAdmin.RatingText`: ratings are integers; the form's 0.1 step and decimal rendering are left out.
- `SessionsAdmin.SessionSubmit`: the date library's parsing and `YYYY-MM-DD HH:mm:ss` formatting are function parameters. The column dates (`DD.MM.YYYY HH:mm`) are not modelled.
- `RegisterForm.EmailErrors`: the e-mail format check is a predicate parameter.
- `SeatSelection.DecodeSeats`: an object element without `row_number` and `seat_number` is passed through unchanged by the source, whatever its fields; the model represents such an element only when it is already in seat shape.
- Strings are sequences of characters. Lengths in the source count UTF-16 code units; that difference matters only outside the Basic Multilingual Plane.
- `String(n)` is modelled for integers only. Exponent notation for huge numbers is not modelled.
- Delete mutations (`handleDelete` on the admin pages) only send the id to the server; they are not modelled.
- The admin layout's collapse toggle, the user dropdown and logout navigation are not modelled.
- `SeatSelection.ToggleTwiceRestores` holds only for a seat that was not selected. A selected seat clicked twice comes back at the end of the selection (`ToggleTwiceMovesToEnd`).

## Findings

| source | as written | input that shows it | evidently intended | confidence | as-written member | corrected member |
|---|---|---|---|---|---|---|
| src/components/hall/HallLayout.tsx:44 | the layout passes availability as `is_available`, but the seat button reads `status`; every seat button therefore takes the default branch, is never disabled, and clicking it calls the select handler | a session whose seat 1/1 is sold: the seat map shows 1/1 as an ordinary enabled button | pass the seat's status so sold and reserved seats are disabled and coloured | high, not executed | HallLayout.EveryCellIsEnabled | HallLayout.IntendedCellReflectsStatus |
| src/layouts/AdminLayout.tsx:57-59 | React runs the child's effect before the parent's. On rendering /admin, `AdminLayout` stores '/admin' before `AdminRoutes` (src/App.tsx:55-61) reads the stored path, so the restore never fires | an admin visits /admin/movies, leaves, and opens /admin: they stay on the dashboard | read the stored path before overwriting it, and return to the last admin page | medium, not executed | AdminLayout.AsWrittenNeverRestores | AdminLayout.AdminPathStore.CommitAdminRender |
| src/pages/MovieDetailsPage.tsx:24-31 | the first date is chosen in an `onSettled` option of `useQuery`; TanStack Query 5, which the pages use (they read `mutation.isPending`, e.g. src/pages/SeatSelectionPage.tsx:217), does not call it, so `selectedDate` stays '' and line 49 passes `[]` | any movie whose first date has sessions: the page opens with no date highlighted and an empty session list until a date button is clicked | choose the first date once the movie arrives (e.g. in an effect on `data`) | medium, not executed | MovieDetails.AsWrittenNoSessionsAfterLoad | MovieDetails.FirstDateShownAfterLoad |
