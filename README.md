# Milo: a verified model of the project store, the storage session and the page logic

Milo is a block-based programming environment for data science. A browser
client edits a workspace of blocks, saves it to a server and loads it back. An
Express server keeps the projects and decides who may change them. This
project models the sequential core of that system in Dafny and proves what
the code promises about it.

- `users.dfy` (module `Users`) covers `routes/users.js`:
  - how an e-mail address is escaped into a collaborator key (`.` becomes `[dot]`) and unescaped again;
  - the dashboard listing `/projects/list`;
  - the handler `/projects/update`, including its collaborator sub-protocol;
  - the role chosen at `/register`.

  The project collection is an in-memory sequence of records, and the user
  collection is a set of registered addresses. The handler's whole decision
  is the pure function `Handle`. The class `ProjectStore` performs it in
  place, and its `Update` method is proved equal to `Handle`.
- `storage.dfy` (module `Storage`) covers `src/storage.js`. The client's
  `MiloStorage` object is the class `Session`. It covers:
  - save and load requests, with the server's responses passed in as inputs;
  - one-shot change monitoring;
  - parsing and loading;
  - pruning of undefined dataset blocks and the dataset imports;
  - the local backup, keyed by the URL without its fragment.

  A document is a sequence of block types. The requests a session sends go
  to an outbox, and the dialogs it shows go to an alert log.
- `helpers.dfy` (module `Helpers`) covers `src/helpers.js`. It has
  `slugify` as its chain of five replacements, `toTitleCase`, and the 32-bit
  `generateHash` loop over its receiver. The class `Network` holds the
  on-line flag.
- `milo.js` code is modelled in `milo.dfy` (module `Milo`):
  - `getStringParamFromUrl`, `getLang` and `isRtl`;
  - the `lang` rewrite of `changeLanguage`;
  - the precedence of `loadBlocks`;
  - the sorted, single-selection language menu of `initLanguage`;
  - the tab bar of `tabClick`, held by the class `App`.
- `strings.dfy` (module `Strings`) holds the character classes of
  JavaScript regular expressions and a few sequence predicates.
  `wrappers.dfy` holds `Option`.

Three behaviours of the code are worth noting, and the model keeps them:

- An anonymous session arms no change listener at all, so it never shows
  "You have unsaved changes". Saves are not the only thing suppressed.
- Monitoring is re-armed after every successful save as well as after every
  successful load. After a load it is re-armed even when the document failed
  to parse.
- On a successful load that denies modification, an anonymous session keeps
  its `canModify` flag and its buttons.

## Model

| member | source | states |
|---|---|---|
| Users.EscapeEmail | routes/users.js:39 | the key holds no `.` and is at least as long as the address |
| Users.UnescapeKey | routes/users.js:94 | the unescaped address is never longer than the key |
| Users.UnescapeEscape | routes/users.js:94 | unescaping an escaped address gives the address back whenever it does not contain `[dot]` |
| Users.EscapeUnescape | routes/users.js:94 | escaping an unescaped key gives the key back whenever it holds no `.` |
| Users.EscapeInjective | routes/users.js:68 | two addresses without `[dot]` that share a key are equal |
| Users.EscapeCollision | routes/users.js:39 | for every `x` and `y`, `x.y` and `x[dot]y` are different addresses with the same key |
| Users.EscapeAppend | routes/users.js:39 | escaping a concatenation is the concatenation of the escapes |
| Users.ListProjects | routes/users.js:38-45 | a project is listed exactly when it is in the store and its owner is the address or its entry under the escaped address exists and is not null |
| Users.FindByKey | routes/users.js:60-61 | the found index holds the key and no earlier project does; none is found only when no project holds it |
| Users.AccessOf | routes/users.js:69 | the level is never empty; it is `'admin'` exactly when the entry under the escaped address is `'admin'`, and any level other than `'none'` is the stored entry |
| Users.MayUpdate | routes/users.js:67-72 | the requester passes exactly when it is the owner or its entry is exactly `'admin'` |
| Users.ChangeCollaborator | routes/users.js:91-131 | `add` sets `'view'` only on an absent or null entry of a registered user, refuses with 404 for an unknown user, and ignores an existing entry; `admin`/`edit`/`view` set the entry; `remove` deletes it; only `'default'` gives 500; every other key is kept |
| Users.RemoveAt | routes/users.js:84 | the collection loses exactly the element at `i` and keeps the order of the others |
| Users.Handle | routes/users.js:58-136 | a missing key gives 404 and no change; 403 exactly when the project exists and the requester may not update it; no failure changes anything; every success comes from an authorised requester and carries the request's type; an authorised request of any other type gets no reply and changes nothing |
| Users.HandleFieldUpdates | routes/users.js:75-89 | `rename`, `trash` and `public` change only that field of the found project and reply 200 with the updated project |
| Users.HandleDelete | routes/users.js:83-85 | `delete` replies with the project and removes exactly it from the collection |
| Users.HandleCollaborator | routes/users.js:90-132 | a collaborator request changes only the collaborator map of the found project, as `ChangeCollaborator` decides, and a change replies 200 with the updated project; a refusal replies its error and an ignored request gets no reply, both without change |
| Users.AddTwice | routes/users.js:92-108 | after a successful `add`, the entry is `'view'`, and the same request again changes nothing and sends no reply |
| Users.FindAfterReplace | routes/users.js:60-61 | replacing the found project by one with the same key keeps it the first match |
| Users.ProjectStore.Update | routes/users.js:58-136 | the new collection and the reply are those `Handle` decides for the old collection |
| Users.RoleFor | routes/users.js:144 | the role is faculty exactly when the option is the string `"faculty"` |
| Storage.SplitHead | src/storage.js:208 | the head is a prefix that ends at the first occurrence of the separator, or is the whole string when there is none |
| Storage.PrunedCounts | src/storage.js:206-218 | pruning keeps every block of a type that is not doomed and no block of a doomed type, counted with multiplicity |
| Storage.PrunedIsFiltered | src/storage.js:206-218 | no kept block is doomed, nothing is added, and a document without doomed blocks is kept whole |
| Storage.PrunedIdempotent | src/storage.js:203-222 | pruning a pruned document changes nothing |
| Storage.ImportsOfSpec | src/storage.js:206-221 | the import list has no duplicates and names exactly the loaded datasets that some undefined `_get` block refers to |
| Storage.Without | src/storage.js:216-218 | a block survives exactly when its type is not one of those removed |
| Storage.WithoutMore | src/storage.js:216-218 | removing one more type after others is removing them all at once |
| Storage.WithoutIsPruned | src/storage.js:216-218 | removing the collected doomed types is pruning |
| Storage.Prune | src/storage.js:203-221 | the two passes return the pruned document and the import list |
| Storage.Collect | src/storage.js:205-221 | the first pass gives the import list in first-mention order and collects exactly the doomed types of the document |
| Storage.RemoveAll | src/storage.js:216-218 | the second pass removes every block of every collected type |
| Storage.ImportEvents | src/storage.js:230-233 | one import per name, in order |
| Storage.LoadEventsOrder | src/storage.js:225-239 | the document is applied exactly once, last, after every import; the flyout is refreshed exactly when something was imported |
| Storage.UrlKey | src/storage.js:25 | the key is the prefix of the URL before its first `#` |
| Storage.UrlKeyIgnoresFragment | src/storage.js:46 | whatever the fragment, the backup key is the URL before it |
| Storage.Session.Save | src/storage.js:58-75 | an anonymous session sends nothing; otherwise one save request with the name, the key or `''`, and the workspace |
| Storage.Session.SaveDone | src/storage.js:76-100 | a failed save only raises an alert; a success sets the key and the hash to the returned key, grants `canModify` only when the new-project input was present, and re-arms monitoring |
| Storage.Session.RetrieveXml | src/storage.js:108-112 | one load request for the key |
| Storage.Session.RetrieveDone | src/storage.js:113-140 | a failed load alerts and clears the hash, changing nothing else; a success keeps the hash, loads the pruned document or adds the XML error alert for unparsable text (and no other alert), re-arms monitoring, and applies the server's verdict as `ApplyPermissions` does |
| Storage.Session.ApplyPermissions | src/storage.js:124-139 | the label shows the project's name and the rename button survives only if renaming is allowed; a modifiable project sets the key, the project and `canModify`; otherwise a signed-in session loses `canModify`, the save and download buttons and gains the clone button, and an anonymous one keeps its flag; nothing else on the page changes |
| Storage.Session.MonitorChanges | src/storage.js:151-157 | an anonymous session arms nothing; otherwise a fresh listener whose baseline is the current workspace |
| Storage.Session.Change | src/storage.js:158-168 | an unchanged workspace keeps the listener; the first differing one marks the project unsaved, disarms the listener for good, and saves only when `canModify` holds |
| Storage.Session.LoadXml | src/storage.js:177-187 | unparsable text alerts and leaves the workspace alone; otherwise the workspace becomes the pruned document |
| Storage.Session.PruneAndLoad | src/storage.js:203-222 | the pruned document is applied after the imports it needs |
| Storage.Session.ImportAndLoad | src/storage.js:225-242 | with no imports the document is applied at once; otherwise each dataset is imported in turn, then the flyout is refreshed and the document is applied |
| Storage.Session.BackupBlocks | src/storage.js:21-28 | the workspace is stored under the URL without its fragment when local storage exists |
| Storage.Session.RestoreBlocks | src/storage.js:45-52 | a stored, parsable backup under that key is pruned and loaded; otherwise nothing happens |
| Helpers.Slugify | src/helpers.js:32-39 | the slug has only `[a-z0-9_-]`, no `--`, and no `-` at either end |
| Helpers.SquashedChars | src/helpers.js:33-36 | after lower-casing, the next three steps leave only slug characters and no `--` |
| Helpers.TrimmedIsSlug | src/helpers.js:37-38 | trimming the dashes at both ends then gives a slug |
| Helpers.DashSpacesChars | src/helpers.js:34 | no white space survives, and no upper-case letter is added |
| Helpers.DashSpacesRun | src/helpers.js:34 | each maximal run of white space, whatever its length, becomes exactly one `-` |
| Helpers.KeepWordAndDashChars | src/helpers.js:35 | only word characters and `-` survive |
| Helpers.SquashDashesChars | src/helpers.js:36 | no `--` survives, and no character outside the slug alphabet is added |
| Helpers.SlugFixedPoint | src/helpers.js:32-39 | every slug comes through `slugify` unchanged, so no valid slug is lost or altered |
| Helpers.SlugifyIdempotent | src/helpers.js:32-39 | the slug of a slug is itself |
| Helpers.TitleCase | src/helpers.js:18-22 | the length is preserved |
| Helpers.TitleCaseIsScan | src/helpers.js:18-22 | title-casing equals the character-by-character reading: the first character of each run that starts with a word character and extends over non-white-space is upper-cased, the rest of the run lower-cased, every other character kept |
| Helpers.ScanInsideRun | src/helpers.js:19-20 | inside a run, the scan lower-cases up to the next white space |
| Helpers.Wrap32 | src/helpers.js:47 | the result is a signed 32-bit integer congruent to the input modulo 2^32 |
| Helpers.StringHash | src/helpers.js:44-48 | the hash is a signed 32-bit integer |
| Helpers.StringHashIsWrappedPolynomial | src/helpers.js:44-48 | wrapping at every step gives the 31-polynomial of the code units wrapped once |
| Helpers.GenerateHash | src/helpers.js:41-50 | a receiver without a length gives 0; otherwise the loop computes the hash of the receiver, not of the argument, in signed 32 bits |
| Helpers.Network.constructor | src/helpers.js:72 | the flag starts as the browser's on-line state |
| Helpers.Network.ShowOfflineAlert | src/helpers.js:73-76 | the flag is false and the disconnection alert is shown |
| Helpers.Network.ShowOnlineAlert | src/helpers.js:78-81 | the flag is true and the reconnection alert is shown |
| Milo.FirstParam | src/milo.js:59 | the leftmost position where `[?&]name=` is followed by a character other than `&`, or none |
| Milo.FirstKey | src/milo.js:135 | the leftmost position where `[?&]name=` occurs, or none |
| Milo.UntilAmp | src/milo.js:59 | the longest prefix without `&` |
| Milo.PlusToSpace | src/milo.js:60 | every `+` reads as a space and every other character is kept |
| Milo.GetStringParamFromUrl | src/milo.js:58-61 | the default when no key is followed by a non-`&` character; otherwise the value of the leftmost match up to the next `&`, with `+` as a space |
| Milo.FirstParamIsLeftmost | src/milo.js:59 | the match found is the leftmost one |
| Milo.GetLangAsWritten | src/milo.js:67-74 | the URL's `lang` is accepted when it is a language or an inherited object property, otherwise `'en'` |
| Milo.GetLangAsWrittenAcceptsInherited | src/milo.js:69 | `?lang=constructor` makes `getLang` as written answer `constructor`, which is not a language |
| Milo.GetLang | src/milo.js:67-74 | the result is always a language: the URL's `lang` when it is one, `'en'` otherwise |
| Milo.IsRtl | src/milo.js:80-82 | no language is right-to-left while `LANGUAGE_RTL` is empty |
| Milo.IndexOf | src/milo.js:138 | the first position of the character, or none when it does not occur |
| Milo.RewriteReplacesFirst | src/milo.js:135-136 | with a `lang` term, only the value of the first one changes and the rest of the string is kept |
| Milo.RewriteInserts | src/milo.js:137-138 | without one, `lang=X&` goes right after the leading `?` and the rest is kept |
| Milo.RewriteThenRead | src/milo.js:132-139 | reading `lang` back from a rewritten search string gives the new value, for every value without `&` or `+` |
| Milo.ChangeLanguageRoundTrip | src/milo.js:118-142 | after a language change, the reloaded page's language is the one chosen |
| Milo.ChooseLoadSource | src/milo.js:96-112 | a hash longer than `#` retrieves its key; then the truthy one-time blocks; then the truthy default blocks; the local backup only when none applies |
| Milo.App.LoadBlocks | src/milo.js:88-113 | the source follows that precedence; the one-time blocks are deleted exactly when they are chosen; parsable chosen blocks are added to the workspace, and unparsable ones raise the parse exception and add nothing |
| Milo.App.ChangeLanguage | src/milo.js:118-139 | with session storage the workspace is kept for the reload; the new search string is the rewrite |
| Milo.BelowAsymmetric | src/milo.js:430-435 | no two names are each below the other |
| Milo.InsertByName | src/milo.js:436 | inserting into a sorted list keeps it sorted and adds exactly the element |
| Milo.SortByName | src/milo.js:436 | the result is sorted by display name and is a permutation of the input |
| Milo.ListsExactlyMeans | src/milo.js:426-429 | a list holding each entry of the map once has only map entries, covers every code, and repeats none |
| Milo.CollectLanguages | src/milo.js:426-429 | the entries are exactly those of `LANGUAGE_NAME`, each once |
| Milo.BuildMenu | src/milo.js:440-448 | one option per entry, in order, selected exactly when its code is the page language |
| Milo.InitLanguage | src/milo.js:419-452 | the menu lists every language once with its display name, sorted by name, with exactly the option of the page language selected |
| Milo.DeselectAll | src/milo.js:236-242 | every tab is switched off and every pane hidden |
| Milo.App.Select | src/milo.js:244-250 | only the chosen tab is on and only its pane is shown |
| Milo.App.TabClick | src/milo.js:211-256 | leaving the XML tab with unparsable text that the user declines changes nothing; otherwise the clicked tab is the only one selected and shown, parsable XML from the XML tab replaces the workspace, and the workspace is shown when the blocks tab is clicked, hidden when it is left, and otherwise keeps its visibility |

## Left out

- Mongo persistence (`save`, `remove`), database errors, passport login, the
  `isAuthenticated` redirect and the express-validator checks are foreign
  libraries. The store is in memory, and every lookup succeeds or finds
  nothing.
- Users.Handle: a branch that sends no response, so the client waits for
  ever, is modelled as `NoReply` with no change.
- Users.ListProjects: the 500 reply on a database error is not modelled.
- Users.ChangeCollaborator: the collaborator map is a plain dictionary. In
  the code it is a JavaScript object, so `collaborators[key] == undefined` is
  false for inherited names such as `constructor` or `toString`. An `add` for
  such a key reaches `break` and gets no reply, where the model refuses it or
  adds it. Assigning under `__proto__` stores no entry but still replies 200,
  where the model stores the key.
- The routes `/login`, `/logout`, `/status` and `/auth/google` are
  authentication glue outside the model.
- The server's `/storage` save and load handler is not part of this model.
  Its permission decisions reach the session only as the response fields
  `canModify` and `canRename`.
- Blockly's XML parsing and rendering are abstract. A document is a sequence
  of block types, and text either parses (`Text`) or does not (`Malformed`).
  Nesting is not modelled: in the code, removing a doomed block with jQuery's
  `.remove()` also removes the blocks attached below it or plugged into its
  inputs, whatever their type, and `<shadow>` elements are not matched by the
  `block` selector. `Storage.Pruned` keeps every block of a type that is not
  doomed.
- Storage.Session.ImportAndLoad: the `await` between imports is not modelled;
  the imports run one after another. In the code, `retrieveXml` arms
  monitoring before an `importAndLoad` that has imports has applied its
  document. The model applies the document first, so its baseline is the
  applied document.
- Storage.Session.ImportAndLoad: every dataset import is taken to succeed. In
  the code a rejected `Datasets.importHelper` promise ends the loop, so the
  document is never applied, after `loadXml_` has already cleared the
  workspace. `Storage.LoadEventsOrder` holds only for imports that all
  complete.
- Storage.Session.SaveDone: the timer that clears the status bar after
  1500 ms is not modelled.
- Storage.Session.Save: the `pages` and `markdownPages` fields of the request
  are not modelled. They come from the Angular sidebar. The name sent is the
  project's name as loaded. The code reads it back with `.html()` from the
  label that `.html(response.project.projectName)` filled, so a name such as
  `R&D` is sent as `R&amp;D`.
- Storage.Collect: the import list is in first-mention order. The code takes
  it from `Object.keys(toImport)`, which lists integer-like keys first, in
  ascending numeric order. So for loaded datasets `b` then `2` the code
  imports `2` first and the model `b` first. The set of names is the same.
- Storage.Session.RetrieveDone: the call to `sidebarInit` (Angular) is not
  modelled.
- Milo.CollectLanguages: the enumeration order of `for ... in` is not fixed.
  Any order is allowed, and only the sorted menu matters.
- Milo.SortByName: it picks one order for entries with equal display names.
  The contracts only state sortedness and permutation, which every correct
  sort meets.
- Milo.GetStringParamFromUrl: `decodeURIComponent`'s percent-decoding and its
  `URIError` are not modelled; only `+` is read as a space. The parameter
  name is taken literally, not as a pattern.
- Milo.App.ChangeLanguage: `newLang` is taken as already passed through
  `encodeURIComponent`, and the reload of the page is not modelled.
- Milo.App.LoadBlocks: the exception `textToDom` raises is returned as
  `thrown`. In the code it propagates out of `Milo.init`, whose remaining
  steps, such as binding the backup on unload, are not part of this model.
- Milo.Below: characters compare by code point, while JavaScript compares
  UTF-16 code units. The two orders differ only between characters outside
  the Basic Multilingual Plane and characters from U+E000 to U+FFFF.
- Milo.App.TabClick: `renderContent`, `svgResize` and the `active` class on
  each tab's parent element are not modelled. They are DOM output only.
- Helpers.Slugify, Helpers.TitleCase: `toLowerCase` and `toUpperCase` map
  ASCII letters only. Other characters are kept as they are.
- Helpers.GenerateHash: a receiver with a length is a sequence of UTF-16
  code units. Every other receiver, such as `Helpers` itself on which the
  function is called, is `None`.
- How `showAlert` (sweetalert) and `window.alert` render a dialog is not
  modelled. Each dialog is one entry of an alert log. `snackbar`, `runJS`,
  `bindClick`, `getBBox_` and `importPrettify` are UI glue outside the model.
- `src/functions.js` (webcam, DOM and logging I/O), `config/database.js`
  (connection plumbing) and `src/statistics/exponentialDistribution.js`
  (floating point) are not modelled.

## Findings

| source | as written | input that shows it | evidently intended | confidence | as-written member | corrected member |
|---|---|---|---|---|---|---|
| src/milo.js:69 | `Milo.LANGUAGE_NAME[lang] === undefined` also finds properties every object inherits, so an inherited name passes as a language | `?lang=constructor` makes `getLang` answer `constructor` | only the keys of `LANGUAGE_NAME` count, so `?lang=constructor` gives `'en'` | not executed | Milo.GetLangAsWritten, Milo.GetLangAsWrittenAcceptsInherited | Milo.GetLang |
