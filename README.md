# CalamaUnido mobile client: input handling and feed bookkeeping

This project models the logic of three screens of CalamaUnido, a React Native
client of a municipal community app (municipal news, neighbourhood councils,
publications by category), and proves properties of that logic. The three
parts are:

- **Login** (`src/screens/LoginScreen.js`):
  - cleaning and formatting a Chilean RUT (national ID) as it is typed, with
    thousands-separator dots, a dash and an upper-cased check character;
  - stripping the dots again;
  - the fixed pattern the form accepts, and the password check;
  - the gate in `handleLogin` that decides whether the token request is made
    at all, and what it sends.
- **Publications feed** (`src/screens/PublicacionesScreen.js`): a paginated,
  filterable list, modelled as a small state machine over:
  - the loaded publications, the page, and whether a next page exists;
  - four loading flags;
  - the selected category ids.

  Its operations are the category toggle, building the request query, applying
  a page in replace or append mode, applying a failed request, the
  "load more" gate, pull-to-refresh, applying the filters, and the
  status-to-colour lookup.
- **New publication form** (`src/screens/CrearPublicacionScreen.js`): the three
  fixed category chips and their toggled selection, which starts as `['General']`.

## Modules

- `seqs.dfy`, module `Seqs`: small facts about concatenation and slicing.
  The larger proofs cite them.
- `wrappers.dfy`, module `Wrappers`: `Option`, for JavaScript's
  `null`/`undefined` results.
- `selection.dfy`, module `Selection`: the list toggle both screens use, on a
  generic element type:
  - filter the item out when it is present, append it when it is absent;
  - its properties.
- `rut.dfy`, module `Rut`:
  - cleaning and the cut to nine characters;
  - a reference definition of the dot grouping, read from the left (`Grouped`);
  - the formatting loop of the source, as a method (`FormatBody`) proved equal
    to the reference;
  - `formatRut` as a function (`FormattedRut`) and as a method (`FormatRut`);
  - `unFormatRut` (`UnFormat`), and the login pattern (`IsValidRut`);
  - the properties of all of these.
- `login.dfy`, module `Login`: the form's state as a class, `LoginForm`.
  - Its methods are the two validators, the two `onChangeText` handlers and
    `handleLogin`.
  - The token endpoint's answer is an input: `TokenReply`.
- `feed.dfy`, module `Publications`:
  - resolving the selected ids to names, the comma join and its inverse, and
    the query and URL;
  - the status colour;
  - the list screen's state as a class, `Feed`.

  Each `fetchPublications` call is split in two. `StartFetch` is the guard
  plus the query. The source builds the query after reading the stored token,
  but from the selection and categories the call captured when it was made,
  so `StartFetch` reads the state at the moment of the call. `CompleteFetch`
  applies the response or the failure, then runs the `finally`. React's
  `setState` calls become sequential field updates.
- `create_post.dfy`, module `CreatePost`:
  - the chip names and the initial selection;
  - the selection as a class, `CategoryChips`, whose invariant is: no
    duplicates, and only chip names;
  - what a series of taps can reach.

## Model

| member | source | states |
|---|---|---|
| `Rut.CleanRut` | src/screens/LoginScreen.js:25-30 | The cleaned text holds only `[0-9kK]` and at most 9 characters. It is a prefix of the full cleaning, and is the whole of it unless 9 characters were kept. |
| `Rut.UpperRutChar` | src/screens/LoginScreen.js:34 | Upper-casing a cleaned character gives a cleaned character that is never `k`. Every character other than `k` is left unchanged, so a digit or `K` stays itself. |
| `Rut.CleanAppend` | src/screens/LoginScreen.js:25 | Cleaning works character by character: cleaning a concatenation is the concatenation of the cleanings. |
| `Rut.GroupedPrepend` | src/screens/LoginScreen.js:37-42 | Putting one more character in front of a grouped suffix gives the grouped longer suffix. A dot goes between them exactly when the suffix is a non-empty multiple of three long. |
| `Rut.PartialIsGrouped` | src/screens/LoginScreen.js:37-42 | Once the loop has done every position after `i`, it has built the grouped suffix after `i`, behind the dot still owed for a completed group. |
| `Rut.FormatBody` | src/screens/LoginScreen.js:36-42 | The reverse loop with its conditional dot returns exactly the reference grouping of the body. |
| `Rut.FormatRut` | src/screens/LoginScreen.js:24-48 | `formatRut` returns exactly `FormattedRut`: the grouped body, `-` and the upper-cased check character when 2 or more characters are kept; otherwise the cleaned text as it is. |
| `Rut.TriosLength` | src/screens/LoginScreen.js:37-42 | Each group of three gains exactly one dot. |
| `Rut.TriosDots` | src/screens/LoginScreen.js:37-42 | In the groups of three, a dot sits exactly at every fourth position. Every other character is a RUT character. |
| `Rut.TriosStrip` | src/screens/LoginScreen.js:37-42 | Removing the dots from the groups of three, or cleaning them, gives the characters back. |
| `Rut.GroupedLength` | src/screens/LoginScreen.js:37-42 | An n-character body gains (n - 1) / 3 dots, with integer division. |
| `Rut.GroupedDots` | src/screens/LoginScreen.js:37-42 | The grouped body has no leading dot. A dot sits exactly at the positions a positive multiple of four from its end, so each dot is followed by three characters. Every other character is a RUT character. |
| `Rut.LeadThenGroupsDots` | src/screens/LoginScreen.js:37-42 | A dot-free leading group of 1 to 3 characters, followed by groups of a dot and three characters, has its dots exactly at the positive multiples of four from the end. |
| `Rut.GroupedStrip` | src/screens/LoginScreen.js:37-42 | Removing the dots from the grouped body, or cleaning it, gives the body back. |
| `Rut.GroupedShape` | src/screens/LoginScreen.js:37-42 | The length, dot positions and round trip of the grouping, stated together. |
| `Rut.GroupedSevenOrEight` | src/screens/LoginScreen.js:37-42 | A 7- or 8-character body is grouped as `h.ddd.ddd`, with a leading group `h` of 1 or 2 characters. |
| `Rut.FormattedFitsInput` | src/screens/LoginScreen.js:24-48 | The formatted text is never longer than 12 characters, the RUT input's `maxLength` (line 160). |
| `Rut.FormattedShape` | src/screens/LoginScreen.js:32-47 | Up to one cleaned character comes back unchanged. From two on, the output has exactly one `-`, in second-to-last place. After it comes the upper-cased check character. Before it comes the grouped body, whose dots removed give the body characters in their order. |
| `Rut.FormatIdempotent` | src/screens/LoginScreen.js:24-48 | Formatting formatted text changes nothing. This matters because the input re-formats its own text on every change (line 155). |
| `Rut.CleanFormatted` | src/screens/LoginScreen.js:25 | Cleaning formatted text drops only its dots and its dash. |
| `Rut.BodyKeepsK` | src/screens/LoginScreen.js:25-44 | A `k` typed before the last character stays in the body: `1k23` is formatted as `1k2-3`. |
| `Rut.UnFormatKeepsOthers` | src/screens/LoginScreen.js:50-52 | Removing the dots leaves no dot, and every other character keeps its number of occurrences. |
| `Rut.UnFormatAppend` | src/screens/LoginScreen.js:50-52 | Removing the dots works character by character over a concatenation. |
| `Rut.UnFormatFormatted` | src/screens/LoginScreen.js:50-52 | On formatted text, removing the dots gives the body, `-` and the upper-cased check character. On up to one cleaned character, it gives that text unchanged. |
| `Rut.PatternParts` | src/screens/LoginScreen.js:55 | Text built as lead `.` three `.` three `-` check, with a lead of 1 to 3, is accepted exactly when the three groups are digits and the check character is in `[0-9kK]`. |
| `Rut.ValidIsRutText` | src/screens/LoginScreen.js:55 | Every accepted text is built that way from its own parts. |
| `Rut.ValidFormatted` | src/screens/LoginScreen.js:54-63 | The pattern accepts the output of `formatRut` exactly when 8 or 9 characters are kept and all but the last are digits. |
| `Rut.ValidFormattedLong` | src/screens/LoginScreen.js:54-63 | With 8 or 9 kept characters, the formatted text is accepted exactly when the body is all digits. |
| `Rut.ValidFormattedShort` | src/screens/LoginScreen.js:54-63 | With fewer than 8 kept characters, the formatted text is never accepted. |
| `Rut.UnFormatValid` | src/screens/LoginScreen.js:50-52 | For accepted text, the dot-free RUT is its three digit groups joined, then `-` and the check character: 7 to 9 digits, `-`, one of `[0-9kK]`. |
| `Rut.UnFormatRutText` | src/screens/LoginScreen.js:50-52 | Removing the dots from text built from digit groups joins the groups and keeps the dash and the check character. |
| `Login.LoginForm.constructor` | src/screens/LoginScreen.js:17-21 | All fields start empty and `isLoading` starts false. The secure store holds whatever token it held. |
| `Login.LoginForm.ValidateRut` | src/screens/LoginScreen.js:54-63 | Returns whether the text matches the pattern. Sets `RUT inválido` on failure and clears the error on success. Only the RUT error changes. |
| `Login.LoginForm.ValidatePassword` | src/screens/LoginScreen.js:65-73 | Fails exactly on the empty password, setting `La clave es requerida`. Otherwise clears the error. Only the password error changes. |
| `Login.LoginForm.OnChangeRut` | src/screens/LoginScreen.js:154-158 | Stores the formatted text, which fits in 12 characters. The RUT error reflects the pattern test of that text. |
| `Login.LoginForm.OnChangePassword` | src/screens/LoginScreen.js:176-179 | Stores the text and refreshes the password error. |
| `Login.LoginForm.HandleLogin` | src/screens/LoginScreen.js:75-125 | Both validators always run, so both error fields are refreshed. Nothing is sent exactly when either fails. Otherwise it sends the dot-free RUT in its 7-to-9-digits-dash-check shape, with the password. The token is stored, and the user signed in, exactly when the request answered without an `error`. Otherwise the stored token is unchanged. `isLoading` is false afterwards on every path. |
| `Selection.RemoveAll` | src/screens/PublicacionesScreen.js:86 | Filtering removes every occurrence of the item. Membership of every other item is unchanged. A list without the item is unchanged. |
| `Selection.RemoveAllCounts` | src/screens/PublicacionesScreen.js:86 | Filtering keeps every other item's number of occurrences. |
| `Selection.RemoveAllAppend` | src/screens/PublicacionesScreen.js:86 | Filtering a concatenation filters each part. |
| `Selection.Toggle` | src/screens/PublicacionesScreen.js:83-90 | The toggle flips the item's membership and leaves every other item's membership as it was. An absent item is appended at the end. |
| `Selection.ToggleOffDeletes` | src/screens/PublicacionesScreen.js:85-86 | In a duplicate-free selection, toggling a present item deletes exactly its position. The rest keep their order. |
| `Selection.ToggleKeepsNoDup` | src/screens/PublicacionesScreen.js:83-90 | A toggle keeps a duplicate-free selection duplicate-free. |
| `Selection.ToggleTwice` | src/screens/CrearPublicacionScreen.js:20-26 | Toggling the same item twice gives back the same members. It gives back the same list when the item was absent at first. |
| `Selection.ToggleTwiceMovesToEnd` | src/screens/CrearPublicacionScreen.js:20-26 | Toggling a present, non-last item twice does not restore the list: `['General','Eventos']` becomes `['Eventos','General']`. |
| `Selection.NoDupWithin` | src/screens/CrearPublicacionScreen.js:16-26 | A duplicate-free selection drawn from a fixed list is no longer than that list. |
| `Publications.FindCategoryName` | src/screens/PublicacionesScreen.js:106 | `find` gives nothing exactly when no category has the id. Otherwise it gives the name of the first category with that id. |
| `Publications.CategoryNames` | src/screens/PublicacionesScreen.js:105-107 | There are at most as many names as selected ids, and none is empty. |
| `Publications.CategoryNamesAppend` | src/screens/PublicacionesScreen.js:105-107 | Resolving the names of a concatenation resolves each part in turn. |
| `Publications.CategoryNamesSound` | src/screens/PublicacionesScreen.js:105-107 | Every name sent is the non-empty resolved name of some selected id. |
| `Publications.CategoryNamesAllKnown` | src/screens/PublicacionesScreen.js:105-107 | When every selected id resolves to a non-empty name, the names are exactly those, one per id, in selection order. |
| `Publications.CategoryNamesNoneKnown` | src/screens/PublicacionesScreen.js:105-107 | When no selected id resolves, there are no names. |
| `Publications.SplitJoin` | src/screens/PublicacionesScreen.js:108 | Names without commas come back unchanged, in order, from their comma join. |
| `Publications.BuildQuery` | src/screens/PublicacionesScreen.js:103-110 | The query always carries the requested page. It has a category parameter exactly when some category is selected. |
| `Publications.QueryNamesRoundTrip` | src/screens/PublicacionesScreen.js:103-110 | When the selection resolves to some comma-free names, the category parameter splits back into exactly the resolved names, in selection order. |
| `Publications.QueryWithUnknownIds` | src/screens/PublicacionesScreen.js:103-110 | Selected ids none of which resolves still add the category parameter, with an empty value. |
| `Publications.DecimalRoundTrip` | src/screens/PublicacionesScreen.js:103 | Reading the page number's decimal text gives the number back. |
| `Publications.RequestUrl` | src/screens/PublicacionesScreen.js:103-109 | The URL starts with the API URL and `?page=<page>`. It ends there exactly when there is no category parameter. Otherwise `&categoria=` and the encoded names follow. |
| `Publications.UrlForSelection` | src/screens/PublicacionesScreen.js:103-110 | The fetch URL continues past the page number exactly when some category is selected. It then carries `&categoria=` and the encoded join of the resolved names. |
| `Publications.UrlCarriesPage` | src/screens/PublicacionesScreen.js:103 | The digits after `?page=` read back as the requested page. |
| `Publications.SituationColorTable` | src/screens/PublicacionesScreen.js:269-280 | `Recibido`, `En curso` and `Pendiente` get their own colours. The three colours differ from each other, and grey is given exactly to every other status. The colour is always one of the four. |
| `Publications.Feed.constructor` | src/screens/PublicacionesScreen.js:28-37 | Empty lists and selection, page 1, a next page assumed, and only the initial loading flag on. |
| `Publications.Feed.StartFetch` | src/screens/PublicacionesScreen.js:98-110 | Returns early, asking for nothing, exactly when no page is left and a page other than 1 is asked for. Otherwise it asks for that page, in that mode, with the query built from the current selection and categories. It changes nothing. |
| `Publications.Feed.CompleteFetch` | src/screens/PublicacionesScreen.js:119-136 | On a page: in replace mode, the list becomes the results; in append mode, the old list followed by the results. A next page exists exactly when `next` is present, and the page becomes the one fetched. On a failure, list, page and next-page flag are unchanged. Either way all four loading flags are off, and the categories and selection are unchanged. |
| `Publications.Feed.Mount` | src/screens/PublicacionesScreen.js:42-45 | The mount fetch asks for page 1 in append mode. |
| `Publications.Feed.ApplyCategories` | src/screens/PublicacionesScreen.js:47-62 | The category list becomes the fetched one, or stays as it was on a failure. |
| `Publications.Feed.ToggleCategory` | src/screens/PublicacionesScreen.js:83-90 | The selection becomes its toggle by the id. |
| `Publications.Feed.LoadMore` | src/screens/PublicacionesScreen.js:146-151 | A request is made exactly when neither the initial load nor a load-more is running and a next page exists; a refresh or a filter load in progress does not stop it. It then asks for `page + 1` in append mode and turns the footer flag on. Otherwise nothing changes. |
| `Publications.Feed.OnRefresh` | src/screens/PublicacionesScreen.js:139-144 | Turns the spinner on, resets the page to 1 and assumes a next page. Asks for page 1 in replace mode. |
| `Publications.Feed.ApplyFilters` | src/screens/PublicacionesScreen.js:92-96 | Turns the overlay flag on, leaves the selection alone, and asks for page 1 in replace mode with the current selection. |
| `Publications.FeedWalkthrough` | src/screens/PublicacionesScreen.js:98-151 | The sequence below ends with the list replaced by `[x]`: a first page `[a, b]` with a next link; one more page `[c]` without one, giving `[a, b, c]`; a further scroll that asks for nothing; then a refresh that brings `[x]`. |
| `CreatePost.CategoryChips.constructor` | src/screens/CrearPublicacionScreen.js:16 | The selection starts as `['General']` and satisfies the chip invariant. |
| `CreatePost.CategoryChips.ToggleCategory` | src/screens/CrearPublicacionScreen.js:20-26 | A chip's tap toggles its name. It keeps the invariant (no duplicates, only chip names), flips that chip's selected state and no other's, and leaves at most three names. |
| `CreatePost.TapsKeepChipSelection` | src/screens/CrearPublicacionScreen.js:16-26 | Any series of chip taps from a chip selection leaves a chip selection of at most three names. |
| `CreatePost.InitialTaps` | src/screens/CrearPublicacionScreen.js:16-26 | Every selection reachable from `['General']` by chip taps is duplicate-free and made of chip names. |
| `CreatePost.GeneralTwiceFromStart` | src/screens/CrearPublicacionScreen.js:16-26 | From the initial selection, tapping `General` twice gives `['General']` again. |

## Behaviour of the code worth knowing

- **The body may contain `k`.** Cleaning keeps `[0-9kK]` anywhere in the text, so the body left of the dash can contain `k` or `K` (`Rut.BodyKeepsK`). Only the last character is upper-cased, so a `k` in the body stays lower-case.
- **The leading group has 1 to 3 digits.** The accepted pattern is `^\d{1,3}(\.\d{3}){2}-[\dkK]$`, so the leading group may have one, two or three digits: `1.234.567-8`, `12.345.678-9` and `123.456.789-0` are all accepted.
- **The mount fetch appends.** `fetchPublications()` on mount uses append mode. When no other fetch completes before it, the list is still empty at that point, so the result is the same as replacing it. A refresh whose response arrives first is kept, and the mount page is appended after it.
- **A double toggle moves the item.** Toggling a present item twice gives back the same members, but the item ends up at the end (`Selection.ToggleTwiceMovesToEnd`). The list itself comes back only when the item was absent at first.

## Left out

- Network and storage. The token endpoint answer, the publications page, the categories list and the stored token are inputs or fields of the model: `TokenReply`, `FetchOutcome`, `Option<seq<Category>>`, `storedToken`. The HTTP calls, `response.json()` and SecureStore are not modelled. A failing `setItemAsync` in `handleLogin` is not modelled either.
- `encodeURIComponent` is a parameter (`encode`) of `RequestUrl`: it is a library function with no contract of interest here.
- Asynchrony. Each handler is one atomic sequential step. Overlapping requests, stale responses and the `useCallback` dependency capture are not modelled, and neither is the order in which React applies queued updates.
- JavaScript values. `data.error` is modelled only as an optional string, whose truthiness is being non-empty. `data.next` is modelled only as present or `null`. `data.results` is always a list. A password that is not a string is not modelled.
- Upper-casing is only modelled on `[0-9kK]`, the only characters that reach `toUpperCase`.
- Presentation. Navigation, the `Alert` dialogs, `console` logging, the filter drawer's animation and visibility (`hideFilterDrawer`), date formatting and the `keyExtractor` counter are not modelled.
- In the new-publication form, `handleAddPost`, `handleCancel` and the title and content fields only navigate or echo text, so they are not modelled.
- `src/screens/HomeScreen.js`, `App.js`, `src/components/publicaciones/Publicacion.js` and `src/screens/PublicacionDetallesScreen.js` are not part of this model. The detail screen's `getSituationColor` is a copy of the list screen's and is modelled once.
